/**
 * The job registry. Every method but the small steps at the top is one critical section of the source, which runs
 * with the registry locked; the clock readings made inside it are parameters, and the process-wide counter of
 * terminal sequence numbers is a field.
 */
module JobRegistry {
  import opened Wrappers
  import opened Decimal
  import opened JobLifecycle
  import opened JobTable
  import opened SubscriptionTable
  import opened AcceptedFeed
  import opened RegistryState
  import opened RegistryRuns
  import Protocol = SubscriptionProtocol

  datatype RegistryError =
    | JobCapacity | CatalogRevisionExhausted | AcceptanceRevisionExhausted | RevisionExhausted
    | TerminalSequenceExhausted
    | JobNotFound | JobImmutable | AcceptedJobsForbidden | AcceptedJobNotFound | CatalogForbidden
    | JobSubscriptionForbidden | JobSubscriptionCapacity | SubscriptionCapacity | SubscriptionIdExhausted
    | SubscriptionNotFound | SubscriptionForbidden | AckRefused(error: Protocol.AckError)

  /** The answer to a cancel, pause or resume request. */
  datatype Control = Control(jobId: string, status: JobStatus, revision: nat)

  /** What an admission amounted to, by its result; its method ensures a run of this one section. */
  ghost function AdmissionSection<T>(
      result: Result<T, RegistryError>, kept: Jobs, id: string, kind: JobKind, now: nat): Section
  {
    match result
    case Ok(_) => Admit(kept, id, kind, now)
    case Err(JobCapacity) => RefuseForRoom
    case Err(_) => RefuseAdmission(kept, id)
  }

  /**
   * A new subscription is in the table under the returned id, the next number's, which no other subscription had; the
   * other subscriptions stay as they are.
   */
  ghost predicate Registers(
      s: RegistryState.State, t: RegistryState.State, owner: string, jobId: Option<string>, id: string)
  {
    && t.nextSubscriptionId == s.nextSubscriptionId + 1 && id == "subscription-" + ToDecimal(t.nextSubscriptionId)
    && t.subscriptions == s.subscriptions[id := Subscription(owner, jobId, Protocol.Flow(None, false), [])]
    && (!Exhausted(s) ==> id !in s.subscriptions)
    && Takes(s, Subscribe(t.subscriptions[id]), t)
  }

  lemma RegistrationRegisters(s: RegistryState.State, owner: string, jobId: Option<string>)
    requires Sound(s) && s.nextSubscriptionId < U64_MAX && |s.subscriptions| < MAX_PROCESS_SUBSCRIBERS
    requires OwnedProperly(NewSubscription(owner, jobId), s.jobs.Keys)
    requires jobId.Some? ==> |Subscribers(s.subscriptions, jobId.value)| < MAX_SUBSCRIBERS_PER_JOB
    ensures var t := Registered(s, NewSubscription(owner, jobId));
      Sound(t) && Registers(s, t, owner, jobId, SubscriptionId(s.nextSubscriptionId + 1))
  {
    RegistrationKeepsSound(s, NewSubscription(owner, jobId));
  }

  /** What a commit to a job that has not ended answers, by the counters that can be exhausted. */
  ghost predicate CommitAnswer(
      result: Result<(), RegistryError>, before: JobRecord, sequence: Option<nat>, catalogClosed: bool)
  {
    var open := !before.publicationClosed;
    && (result == Err(TerminalSequenceExhausted) <==> open && sequence.None?)
    && (result == Err(RevisionExhausted) <==> !open || (sequence.Some? && before.revision >= U64_MAX))
    && (result == Err(CatalogRevisionExhausted)
        <==> open && sequence.Some? && before.revision < U64_MAX && catalogClosed)
    && (result.Ok? <==> open && sequence.Some? && before.revision < U64_MAX && !catalogClosed)
  }

  /** An operation that ends no job unnumbered is published while the job's revisions last. */
  lemma RequestIsAnswered(s: RegistryState.State, id: string, op: Op, tick: Tick)
    requires Sound(s) && id in s.jobs
    ensures Lawful(s.jobs[id])
    ensures Perform(s.jobs[id], op, tick).ok
            <==> && !Immutable(s.jobs[id]) && s.jobs[id].revision < U64_MAX && !EndsUnnumbered(s.jobs[id], op, tick)
                 && (op == RequestPause ==> s.jobs[id].status.Queued? || s.jobs[id].status.Running?)
                 && (op == RequestResume ==> s.jobs[id].status.Paused?)
  {
    assert PartSound(s, JobsPart);
    assert JobAt(s.jobs, s.nextJobId, s.nextTerminalSequence, id);
    PublishesIff(s.jobs[id], op, tick);
  }

  /** The bookkeeping of pauses and of the finish, step by step. */
  method SettleStep(before: Stopwatch, status: JobStatus, now: nat) returns (watch: Stopwatch)
    ensures watch == Settle(before, status, now)
  {
    watch := before;
    if status.Paused? {
      if watch.pausedAt.None? {
        watch := watch.(pausedAt := Some(now));
      }
    } else if watch.pausedAt.Some? {
      watch := watch.(pausedDuration := watch.pausedDuration + Since(now, watch.pausedAt.value), pausedAt := None);
    }
    if IsTerminal(status) && watch.finishedAt.None? {
      watch := watch.(finishedAt := Some(now));
    }
  }

  /** `publish_record`, step by step. */
  method PublishStep(record: JobRecord, tick: Tick) returns (published: JobRecord, ok: bool)
    ensures Publication(published, ok) == PublishRecord(record, tick)
  {
    published := record;
    if record.publicationClosed {
      return published, false;
    }
    var watch := SettleStep(record.watch, record.status, tick.now);
    published := published.(watch := watch);
    if published.revision >= U64_MAX {
      return published.(publicationClosed := true), false;
    }
    published := published.(revision := published.revision + 1);
    published := published.(snapshot := SnapshotOf(published, Millis(Elapsed(watch, tick.later))));
    ok := true;
  }

  /** The id made from the next job number, which is new until the numbers run out. */
  method NumeralOf(next: nat, ghost issued: nat, ghost jobs: Jobs, ghost sequences: nat) returns (jobId: string)
    requires JobsSound(jobs, issued, sequences) && next == SaturatingAdd(issued, 1)
    ensures jobId == ToDecimal(next) && NextId(issued, jobs, jobId)
  {
    NextJobIsFresh(jobs, issued, sequences);
    jobId := ToDecimal(next);
  }

  class JobRegistry {
    var nextJobId: nat
    var nextAcceptanceRevision: nat
    var nextTerminalSequence: nat
    var nextSubscriptionId: nat
    var catalogRevision: nat
    var catalogClosed: bool
    var catalog: Catalog
    var jobs: Jobs
    var acceptedJobs: seq<Envelope>
    var acceptedValue: seq<Envelope>
    var subscriptions: Subscriptions

    /** Everything but the feed of accepted jobs. */
    ghost function View(): RegistryState.State
      reads this`nextJobId, this`nextTerminalSequence, this`nextSubscriptionId
      reads this`catalogRevision, this`catalogClosed, this`catalog, this`jobs, this`subscriptions
    {
      RegistryState.State(nextJobId, nextTerminalSequence, nextSubscriptionId, catalogRevision, catalogClosed, catalog,
          jobs, subscriptions)
    }

    ghost predicate ValidTables()
      reads this`nextJobId, this`nextTerminalSequence, this`nextSubscriptionId
      reads this`catalogRevision, this`catalogClosed, this`catalog, this`jobs, this`subscriptions
    {
      Sound(View())
    }

    /** The queue holds the acceptances since the last acknowledged one, and the watch channel holds the queue. */
    ghost predicate ValidFeed()
      reads this`acceptedJobs, this`acceptedValue, this`nextAcceptanceRevision
    {
      nextAcceptanceRevision <= U64_MAX && Contiguous(acceptedJobs, nextAcceptanceRevision)
          && acceptedValue == acceptedJobs
    }

    /** Each half is kept by the methods that touch it; the others leave its fields alone. */
    ghost predicate Valid()
      reads this
    {
      ValidTables() && ValidFeed()
    }

    constructor ()
      ensures Valid() && jobs == map[] && subscriptions == map[] && acceptedJobs == []
    {
      nextJobId, nextAcceptanceRevision, nextTerminalSequence, nextSubscriptionId, catalogRevision := 0, 0, 0, 0, 0;
      catalogClosed := false;
      catalog := Catalog(0, []);
      jobs := map[];
      acceptedJobs, acceptedValue := [], [];
      subscriptions := map[];
      new;
      EmptyIsSound(View());
    }

    // -------------------------------------------------------------------------------------------
    // Steps shared by the critical sections
    // -------------------------------------------------------------------------------------------

    /** `publish_catalog`. */
    method PublishCatalog() returns (ok: bool)
      requires JobsSound(jobs, nextJobId, nextTerminalSequence)
      modifies this`catalog, this`catalogRevision, this`catalogClosed
      ensures CatalogPublished(old(View()), View()) && ok == !catalogClosed
      ensures ok ==> forall i :: 0 <= i < |catalog.jobs| ==>
                       Describes(catalog.jobs[i], jobs)
    {
      if catalogClosed {
        return false;
      }
      if catalogRevision >= U64_MAX {
        catalogClosed := true;
        return false;
      }
      catalogRevision := catalogRevision + 1;
      var descriptors := ListJobs(jobs, nextJobId, nextTerminalSequence);
      catalog := Catalog(catalogRevision, descriptors);
      return true;
    }

    /** `allocate_terminal_sequence`. */
    method AllocateTerminalSequence() returns (sequence: Option<nat>)
      modifies this`nextTerminalSequence
      ensures sequence == NextSequence(old(nextTerminalSequence))
      ensures nextTerminalSequence == old(nextTerminalSequence) + if sequence.Some? then 1 else 0
    {
      if nextTerminalSequence >= U64_MAX {
        return None;
      }
      nextTerminalSequence := nextTerminalSequence + 1;
      return Some(nextTerminalSequence);
    }

    /** `cancel_job_subscriptions`. */
    method CancelJobSubscriptions(jobId: string)
      modifies this`subscriptions
      ensures subscriptions == WithoutJobs(old(subscriptions), {jobId})
      ensures forall id :: id in subscriptions
                <==> id in old(subscriptions) && old(subscriptions)[id].jobId != Some(jobId)
      ensures forall id :: id in subscriptions ==> subscriptions[id] == old(subscriptions)[id]
    {
      var ids := set id | id in subscriptions && subscriptions[id].jobId == Some(jobId);
      subscriptions := RemoveAll(subscriptions, ids);
    }

    /** `evict_oldest_terminal_jobs`. */
    method EvictOldestTerminalJobs()
      requires JobsSound(jobs, nextJobId, nextTerminalSequence)
      modifies this`jobs, this`subscriptions
      ensures JobsSound(jobs, nextJobId, nextTerminalSequence)
      ensures Evicted(old(jobs), old(subscriptions), jobs, subscriptions) && !CanEvict(jobs)
      ensures CanEvict(old(jobs)) ==> |jobs| < |old(jobs)|
    {
      EvictingNothing(jobs, subscriptions);
      while |Ended(jobs)| >= MAX_RETAINED_TERMINAL_JOBS
        invariant JobsSound(jobs, nextJobId, nextTerminalSequence)
        invariant Evicted(old(jobs), old(subscriptions), jobs, subscriptions)
        decreases |jobs|
      {
        var oldest := FindOldestEnded(jobs);
        if oldest.None? {
          break;
        }
        EvictionAdvances(old(jobs), old(subscriptions), jobs, subscriptions, nextJobId, nextTerminalSequence,
            oldest.value);
        CancelJobSubscriptions(oldest.value);
        jobs := jobs - {oldest.value};
      }
    }

    // -------------------------------------------------------------------------------------------
    // Admission and dismissal
    // -------------------------------------------------------------------------------------------

    /**
     * `try_create_job_locked`. Admission is refused exactly when the table is full and eviction cannot help, so a
     * refusal for want of room never follows an eviction and leaves the published catalog true. `kept` is what
     * eviction leaves, and `id` the new job's id.
     */
    method TryCreateUnpublishedJob(kind: JobKind, now: nat)
      returns (result: Result<StartedJob, RegistryError>, ghost kept: Jobs, ghost id: string)
      requires ValidTables()
      modifies this`nextJobId, this`jobs, this`subscriptions, this`catalog, this`catalogRevision, this`catalogClosed
      ensures ValidTables()
      ensures Run([old(View()), View()], [AdmissionSection(result, kept, id, kind, now)]) && !CanEvict(kept)
      ensures result == Err(JobCapacity) <==> !CanEvict(old(jobs)) && |old(jobs)| >= MAX_ADMITTED_JOBS
      ensures result.Ok? ==> result.value == StartedJob(id, kind, now)
      ensures result.Ok? && nextTerminalSequence < U64_MAX ==> |Ended(jobs)| < MAX_RETAINED_TERMINAL_JOBS
      ensures result.Err? ==> result.error == JobCapacity || result.error == CatalogRevisionExhausted
    {
      ghost var s := View();
      var jobId := MakeRoom();
      kept, id := jobs, jobId;
      RoomIsMade(s, View());
      if |jobs| >= MAX_ADMITTED_JOBS {
        RoomRefused(s, View(), jobs);
        return Err(JobCapacity), kept, id;
      }
      var ok := PlaceJob(s, jobId, kind, now);
      RunOfOne(s, if ok then Admit(kept, jobId, kind, now) else RefuseAdmission(kept, jobId), View());
      if !ok {
        return Err(CatalogRevisionExhausted), kept, id;
      }
      return Ok(StartedJob(jobId, kind, now)), kept, id;
    }

    /** The next job id is the next number, written in decimal. */
    method TakeJobId() returns (jobId: string)
      requires JobsSound(jobs, nextJobId, nextTerminalSequence)
      modifies this`nextJobId
      ensures nextJobId == SaturatingAdd(old(nextJobId), 1) && jobId == ToDecimal(nextJobId)
      ensures JobsSound(jobs, nextJobId, nextTerminalSequence) && NextId(old(nextJobId), jobs, jobId)
    {
      var next := SaturatingAdd(nextJobId, 1);
      jobId := NumeralOf(next, nextJobId, jobs, nextTerminalSequence);
      MoreIssuedKeepsJobs(jobs, nextJobId, next, nextTerminalSequence);
      nextJobId := next;
    }

    /** The head of `try_create_job_locked`: the next job id, and room for it where eviction can make some. */
    method MakeRoom() returns (jobId: string)
      requires ValidTables()
      modifies this`nextJobId, this`jobs, this`subscriptions
      ensures nextJobId == SaturatingAdd(old(nextJobId), 1) && NextId(old(nextJobId), old(jobs), jobId)
      ensures JobsSound(jobs, nextJobId, nextTerminalSequence)
      ensures Evicted(old(jobs), old(subscriptions), jobs, subscriptions) && !CanEvict(jobs)
    {
      assert PartSound(View(), JobsPart);
      jobId := TakeJobId();
      EvictOldestTerminalJobs();
    }

    /** The rest of `try_create_job_locked`: the job enters the table, and leaves it again if it cannot be announced. */
    method PlaceJob(ghost s: RegistryState.State, jobId: string, kind: JobKind, now: nat) returns (ok: bool)
      requires Sound(s) && JobsSound(jobs, nextJobId, nextTerminalSequence) && !CanEvict(jobs)
      requires View() == Cleared(s, jobs) && |jobs| < MAX_ADMITTED_JOBS
      requires EvictedJobs(s.jobs, jobs) && NextId(s.nextJobId, s.jobs, jobId)
      modifies this`jobs, this`catalog, this`catalogRevision, this`catalogClosed
      ensures ValidTables()
      ensures Takes(s, if ok then Admit(old(jobs), jobId, kind, now) else RefuseAdmission(old(jobs), jobId), View())
      ensures ok && nextTerminalSequence < U64_MAX ==> |Ended(jobs)| < MAX_RETAINED_TERMINAL_JOBS
    {
      AdmissionKeepsJobs(jobs, nextJobId, nextTerminalSequence, jobId, kind, now);
      AdmissionRetains(jobs, jobId, NewJob(jobId, kind, now), nextJobId, nextTerminalSequence);
      jobs := jobs[jobId := NewJob(jobId, kind, now)];
      ok := PublishCatalog();
      if ok {
        AdmissionKeepsSound(s, View(), old(jobs), jobId, kind, now);
      } else {
        RefusalUndoesAdmission(s, View(), old(jobs), jobId, kind, now);
        jobs := jobs - {jobId};
        RefusalKeepsSound(s, View(), old(jobs), jobId);
      }
    }

    /**
     * `try_accept_job`: the admission of a job, whose acceptance takes the next revision and the end of the queue. A
     * refusal leaves the feed alone, and without a revision left nothing happens at all.
     */
    method TryAcceptJob(kind: JobKind, origin: Origin, now: nat)
      returns (result: Result<Envelope, RegistryError>, ghost kept: Jobs, ghost id: string)
      requires Valid()
      modifies this`nextJobId, this`jobs, this`subscriptions, this`catalog, this`catalogRevision, this`catalogClosed
      modifies this`nextAcceptanceRevision, this`acceptedJobs, this`acceptedValue
      ensures Valid()
      ensures result == Err(AcceptanceRevisionExhausted) <==> old(nextAcceptanceRevision) == U64_MAX
      ensures result == Err(AcceptanceRevisionExhausted) ==> View() == old(View())
      ensures result != Err(AcceptanceRevisionExhausted) ==>
                && Run([old(View()), View()], [AdmissionSection(result, kept, id, kind, now)])
                && (result == Err(JobCapacity) <==> !CanEvict(old(jobs)) && |old(jobs)| >= MAX_ADMITTED_JOBS)
                && (result.Err? ==> result.error == JobCapacity || result.error == CatalogRevisionExhausted)
      ensures result.Err? ==> acceptedJobs == old(acceptedJobs) && nextAcceptanceRevision == old(nextAcceptanceRevision)
      ensures result.Ok? ==>
                && result.value.job == StartedJob(id, kind, now)
                && nextAcceptanceRevision == old(nextAcceptanceRevision) + 1
                && acceptedJobs == old(acceptedJobs) + [result.value]
                && result.value.revision == nextAcceptanceRevision && result.value.origin == origin
                && (nextTerminalSequence < U64_MAX ==> |Ended(jobs)| < MAX_RETAINED_TERMINAL_JOBS)
    {
      if nextAcceptanceRevision == U64_MAX {
        return Err(AcceptanceRevisionExhausted), jobs, [];
      }
      var created;
      created, kept, id := TryCreateUnpublishedJob(kind, now);
      if created.Err? {
        return Err(created.error), kept, id;
      }
      ghost var admitted := View();
      assert acceptedJobs == old(acceptedJobs) && nextAcceptanceRevision == old(nextAcceptanceRevision);
      var envelope := Enqueue(created.value, origin);
      assert View() == admitted;
      return Ok(envelope), kept, id;
    }

    method Enqueue(job: StartedJob, origin: Origin) returns (envelope: Envelope)
      requires ValidFeed() && nextAcceptanceRevision < U64_MAX
      modifies this`nextAcceptanceRevision, this`acceptedJobs, this`acceptedValue
      ensures ValidFeed() && envelope.job == job
      ensures nextAcceptanceRevision == old(nextAcceptanceRevision) + 1
      ensures acceptedJobs == old(acceptedJobs) + [envelope]
      ensures envelope.revision == nextAcceptanceRevision && envelope.origin == origin
    {
      nextAcceptanceRevision := nextAcceptanceRevision + 1;
      envelope := Envelope(nextAcceptanceRevision, job, origin);
      ContiguousAppend(acceptedJobs, envelope);
      acceptedJobs := acceptedJobs + [envelope];
      acceptedValue := acceptedJobs;
    }

    /** `remove_job_if_terminal`: exactly the ended jobs can be dismissed, and their subscriptions go with them. */
    method RemoveJobIfTerminal(jobId: string) returns (removed: Option<JobKind>)
      requires ValidTables()
      modifies this`jobs, this`subscriptions, this`catalog, this`catalogRevision, this`catalogClosed
      ensures ValidTables()
      ensures removed.Some? <==> jobId in old(jobs) && IsTerminal(old(jobs)[jobId].status)
      ensures removed.Some? ==>
          removed.value == old(jobs)[jobId].kind && Takes(old(View()), Section.Dismiss(jobId), View())
      ensures jobId in old(jobs) && Current(old(jobs)[jobId]) ==>
          (removed.Some? <==> old(jobs)[jobId].snapshot.can.dismiss)
      ensures removed.None? ==> View() == old(View())
    {
      ghost var s := View();
      if jobId in jobs && Current(jobs[jobId]) {
        DismissFlag(s, jobId);
      }
      if jobId !in jobs || !IsTerminal(jobs[jobId].status) {
        return None;
      }
      assert PartSound(s, JobsPart);
      CancelJobSubscriptions(jobId);
      removed := Some(jobs[jobId].kind);
      ShrinkKeepsJobs(jobs, nextJobId, nextTerminalSequence, jobs - {jobId});
      jobs := jobs - {jobId};
      var _ := PublishCatalog();
      DismissalKeepsSound(s, View(), jobId);
    }

    // -------------------------------------------------------------------------------------------
    // Operations on one job
    // -------------------------------------------------------------------------------------------

    method StoreAndAnnounce(jobId: string, edited: JobRecord, announce: bool, tick: Tick)
      returns (published: bool, announced: bool)
      requires JobsSound(jobs[jobId := PublishRecord(edited, tick).record], nextJobId, nextTerminalSequence)
      modifies this`jobs, this`catalog, this`catalogRevision, this`catalogClosed
      ensures jobs == old(jobs)[jobId := PublishRecord(edited, tick).record]
          && published == PublishRecord(edited, tick).ok
      ensures if published && announce then CatalogPublished(old(View()), View()) else SameCatalog(old(View()), View())
      ensures announced <==> published && announce && !catalogClosed
    {
      var record;
      record, published := PublishStep(edited, tick);
      jobs := jobs[jobId := record];
      announced := false;
      if published && announce {
        announced := PublishCatalog();
      }
    }

    /** The end of every operation that publishes: `publish_record`, and `publish_catalog` when it is called for. */
    method Conclude(
        jobId: string, edited: JobRecord, announce: bool, tick: Tick, ghost op: Op, ghost s: RegistryState.State)
      returns (published: bool, announced: bool)
      requires Sound(s) && jobId in s.jobs && tick.sequence == NextSequence(s.nextTerminalSequence)
      requires View() == s.(nextTerminalSequence := SequencesAfter(s.nextTerminalSequence, s.jobs[jobId], edited))
      requires Prepare(s.jobs[jobId], op, tick) == Publish(edited) && announce == Announced(s.jobs[jobId], op, edited)
      modifies this`jobs, this`catalog, this`catalogRevision, this`catalogClosed
      ensures ValidTables() && Edited(s, View(), jobId, op, tick)
      ensures published == Perform(s.jobs[jobId], op, tick).ok
          && (announced <==> published && announce && !catalogClosed)
    {
      assert PartSound(s, JobsPart);
      EditKeepsJobs(s.jobs, s.nextJobId, s.nextTerminalSequence, jobId, op, tick);
      PublishingDecidesNothing(s.jobs[jobId], edited, op, tick, s.nextTerminalSequence);
      published, announced := StoreAndAnnounce(jobId, edited, announce, tick);
      EditKeepsSound(s, View(), jobId, op, tick);
    }

    /** `request_cancel`. */
    method RequestCancel(jobId: string, now: nat, later: nat) returns (response: Option<Control>)
      requires ValidTables()
      modifies this`jobs, this`catalog, this`catalogRevision, this`catalogClosed
      ensures ValidTables()
      ensures jobId !in old(jobs) ==> View() == old(View()) && response == None
      ensures jobId in old(jobs) ==>
                var tick := Tick(now, later, NextSequence(old(nextTerminalSequence)));
                && Takes(old(View()), Operate(jobId, Op.RequestCancel, tick), View())
                && (response.Some? <==> IsTerminal(old(jobs)[jobId].status)
                                        || (!old(jobs)[jobId].publicationClosed && old(jobs)[jobId].revision < U64_MAX
                                            && !catalogClosed))
                && (response.Some? ==> response.value == Control(jobId, jobs[jobId].status, jobs[jobId].revision))
    {
      if jobId !in jobs {
        return None;
      }
      var record, tick := jobs[jobId], Tick(now, later, NextSequence(nextTerminalSequence));
      if IsTerminal(record.status) || record.publicationClosed {
        UnchangedIsEdited(View(), jobId, Op.RequestCancel, tick);
        return if IsTerminal(record.status) then Some(Control(jobId, record.status, record.revision)) else None;
      }
      RequestIsAnswered(View(), jobId, Op.RequestCancel, tick);
      record := record.(cancelRequested := true);
      record := record.(gateClosed := false);
      record := record.(status := JobStatus.Cancelling);
      var published, announced := Conclude(jobId, record, true, tick, Op.RequestCancel, View());
      return if published && announced then Some(Control(jobId, jobs[jobId].status, jobs[jobId].revision)) else None;
    }

    /** `request_pause`: only a queued or running job is paused; any other answers with what it is. */
    method RequestPause(jobId: string, now: nat, later: nat) returns (response: Option<Control>)
      requires ValidTables()
      modifies this`jobs, this`catalog, this`catalogRevision, this`catalogClosed
      ensures ValidTables()
      ensures jobId !in old(jobs) ==> View() == old(View()) && response == None
      ensures jobId in old(jobs) ==>
                var tick := Tick(now, later, NextSequence(old(nextTerminalSequence)));
                && Takes(old(View()), Operate(jobId, Op.RequestPause, tick), View())
                && (response.Some? <==>
                    || (!old(jobs)[jobId].status.Queued? && !old(jobs)[jobId].status.Running?)
                    || old(jobs)[jobId].publicationClosed || (old(jobs)[jobId].revision < U64_MAX && !catalogClosed))
                && (response.Some? ==> response.value == Control(jobId, jobs[jobId].status, jobs[jobId].revision))
    {
      if jobId !in jobs {
        return None;
      }
      var record, tick := jobs[jobId], Tick(now, later, NextSequence(nextTerminalSequence));
      if Immutable(record) || !(record.status.Queued? || record.status.Running?) {
        UnchangedIsEdited(View(), jobId, Op.RequestPause, tick);
        return Some(Control(jobId, record.status, record.revision));
      }
      RequestIsAnswered(View(), jobId, Op.RequestPause, tick);
      record := record.(pausedFrom := Some(record.status));
      record := record.(status := JobStatus.Paused);
      record := record.(gateClosed := true);
      var published, announced := Conclude(jobId, record, true, tick, Op.RequestPause, View());
      return if published && announced then Some(Control(jobId, jobs[jobId].status, jobs[jobId].revision)) else None;
    }

    /** `request_resume`. */
    method RequestResume(jobId: string, now: nat, later: nat) returns (response: Option<Control>)
      requires ValidTables()
      modifies this`jobs, this`catalog, this`catalogRevision, this`catalogClosed
      ensures ValidTables()
      ensures jobId !in old(jobs) ==> View() == old(View()) && response == None
      ensures jobId in old(jobs) ==>
                var tick := Tick(now, later, NextSequence(old(nextTerminalSequence)));
                && Takes(old(View()), Operate(jobId, Op.RequestResume, tick), View())
                && (response.Some? <==>
                    || !old(jobs)[jobId].status.Paused? || old(jobs)[jobId].publicationClosed
                    || (old(jobs)[jobId].revision < U64_MAX && !catalogClosed))
                && (response.Some? ==> response.value == Control(jobId, jobs[jobId].status, jobs[jobId].revision))
    {
      if jobId !in jobs {
        return None;
      }
      var record, tick := jobs[jobId], Tick(now, later, NextSequence(nextTerminalSequence));
      if !record.status.Paused? || record.publicationClosed {
        UnchangedIsEdited(View(), jobId, Op.RequestResume, tick);
        return Some(Control(jobId, record.status, record.revision));
      }
      RequestIsAnswered(View(), jobId, Op.RequestResume, tick);
      record := record.(gateClosed := false);
      var status := if record.pausedFrom.Some? then record.pausedFrom.value else JobStatus.Running;
      record := record.(status := status, pausedFrom := None);
      var published, announced := Conclude(jobId, record, true, tick, Op.RequestResume, View());
      return if published && announced then Some(Control(jobId, jobs[jobId].status, jobs[jobId].revision)) else None;
    }

    /** `configure_recovery_facts`. */
    method ConfigureRecoveryFacts(jobId: string, recovery: Recovery, now: nat, later: nat)
      returns (result: Result<(), RegistryError>)
      requires ValidTables()
      modifies this`jobs, this`catalog, this`catalogRevision, this`catalogClosed
      ensures ValidTables()
      ensures jobId !in old(jobs) ==> View() == old(View()) && result == Err(JobNotFound)
      ensures jobId in old(jobs) ==>
                var op, tick := Configure(recovery), Tick(now, later, NextSequence(old(nextTerminalSequence)));
                && Takes(old(View()), Operate(jobId, op, tick), View())
                && (result == Err(JobImmutable) <==> Immutable(old(jobs)[jobId]))
                && (result == Err(RevisionExhausted)
                    <==> !Immutable(old(jobs)[jobId]) && old(jobs)[jobId].revision >= U64_MAX)
                && (result == Err(CatalogRevisionExhausted)
                    <==> !Immutable(old(jobs)[jobId]) && old(jobs)[jobId].revision < U64_MAX && catalogClosed)
                && (result.Ok?
                    <==> !Immutable(old(jobs)[jobId]) && old(jobs)[jobId].revision < U64_MAX && !catalogClosed)
    {
      if jobId !in jobs {
        return Err(JobNotFound);
      }
      var record, tick := jobs[jobId], Tick(now, later, NextSequence(nextTerminalSequence));
      if IsTerminal(record.status) || record.publicationClosed {
        UnchangedIsEdited(View(), jobId, Configure(recovery), tick);
        return Err(JobImmutable);
      }
      RequestIsAnswered(View(), jobId, Configure(recovery), tick);
      record := record.(recovery := recovery);
      var published, announced := Conclude(jobId, record, true, tick, Configure(recovery), View());
      return if !published then Err(RevisionExhausted)
             else if !announced then Err(CatalogRevisionExhausted)
             else Ok(());
    }

    /** The common end of `emit_job_event` and `emit_direct_event`. */
    method FinishEvent(jobId: string, edited: JobRecord, previous: JobStatus, now: nat, later: nat, ghost op: Op)
      requires ValidTables() && jobId in jobs && !Immutable(jobs[jobId]) && previous == jobs[jobId].status
      requires edited.terminalSequence == jobs[jobId].terminalSequence
      requires op.EmitDirect? || (op.EmitCore? && !op.core.CoreCompleted? && !op.core.CoreFailed?)
      requires var tick := Tick(now, later, NextSequence(nextTerminalSequence));
        Prepare(jobs[jobId], op, tick) == Finished(edited, tick)
      modifies this`jobs, this`nextTerminalSequence, this`catalog, this`catalogRevision, this`catalogClosed
      ensures var tick := Tick(now, later, NextSequence(old(nextTerminalSequence)));
        ValidTables() && Edited(old(View()), View(), jobId, op, tick)
    {
      var record, tick := edited, Tick(now, later, NextSequence(nextTerminalSequence));
      if IsTerminal(record.status) && record.terminalSequence.None? {
        var sequence := AllocateTerminalSequence();
        if sequence.None? {
          jobs := jobs[jobId := record.(publicationClosed := true)];
          EditKeepsSound(old(View()), View(), jobId, op, tick);
          return;
        }
        record := record.(terminalSequence := sequence);
      }
      var announce := record.status != previous || IsTerminal(record.status);
      var _, _ := Conclude(jobId, record, announce, tick, op, old(View()));
    }

    /** `emit_job_event`. */
    method EmitJobEvent(jobId: string, event: CoreEvent, now: nat, later: nat)
      requires ValidTables()
      modifies this`jobs, this`nextTerminalSequence, this`catalog, this`catalogRevision, this`catalogClosed
      ensures ValidTables()
      ensures jobId !in old(jobs) ==> View() == old(View())
      ensures jobId in old(jobs) ==>
                var tick := Tick(now, later, NextSequence(old(nextTerminalSequence)));
                Takes(old(View()), Operate(jobId, EmitCore(event), tick), View())
    {
      if jobId !in jobs {
        return;
      }
      var record, tick := jobs[jobId], Tick(now, later, NextSequence(nextTerminalSequence));
      if IsTerminal(record.status) || record.publicationClosed {
        UnchangedIsEdited(View(), jobId, EmitCore(event), tick);
        return;
      }
      if event.CoreStarted? {
        record := record.(kind := event.kind);
      }
      if event.CoreCompleted? || event.CoreFailed? {
        if event.CoreFailed? {
          record := record.(latestFailure := Some(CoreFailure(event.message)));
        }
        var _, _ := Conclude(jobId, record, true, tick, EmitCore(event), View());
        return;
      }
      var previous := record.status;
      if event.CoreStarted? && (record.status.Queued? || record.status.Running?) {
        record := record.(status := JobStatus.Running);
      } else if event.CoreCancelled? {
        record := record.(status := JobStatus.Cancelled);
      }
      FinishEvent(jobId, record, previous, now, later, EmitCore(event));
    }

    /** `emit_direct_event`. */
    method EmitDirectEvent(jobId: string, emitted: Event, now: nat, later: nat)
      requires ValidTables()
      modifies this`jobs, this`nextTerminalSequence, this`catalog, this`catalogRevision, this`catalogClosed
      ensures ValidTables()
      ensures jobId !in old(jobs) ==> View() == old(View())
      ensures jobId in old(jobs) ==>
                var tick := Tick(now, later, NextSequence(old(nextTerminalSequence)));
                Takes(old(View()), Operate(jobId, EmitDirect(emitted), tick), View())
    {
      if jobId !in jobs {
        return;
      }
      var record, tick := jobs[jobId], Tick(now, later, NextSequence(nextTerminalSequence));
      if IsTerminal(record.status) || record.publicationClosed {
        UnchangedIsEdited(View(), jobId, EmitDirect(emitted), tick);
        return;
      }
      assert record.terminalSequence == None by {
        assert PartSound(View(), JobsPart);
        assert JobAt(jobs, nextJobId, nextTerminalSequence, jobId);
      }
      var edited := DirectStep(record, emitted);
      FinishEvent(jobId, edited, record.status, now, later, EmitDirect(emitted));
    }

    /** `commit_completed`: a job being cancelled ends as cancelled, and its summary is dropped. */
    method CommitCompleted(jobId: string, summary: Summary, now: nat, later: nat)
      returns (result: Result<(), RegistryError>)
      requires ValidTables()
      modifies this`jobs, this`nextTerminalSequence, this`catalog, this`catalogRevision, this`catalogClosed
      ensures ValidTables()
      ensures jobId !in old(jobs) ==> View() == old(View()) && result == Err(JobNotFound)
      ensures jobId in old(jobs) ==>
                var tick := Tick(now, later, NextSequence(old(nextTerminalSequence)));
                && Takes(old(View()), Operate(jobId, Commit(summary), tick), View())
                && (IsTerminal(old(jobs)[jobId].status) ==> result.Ok?)
                && (!IsTerminal(old(jobs)[jobId].status) ==>
                      CommitAnswer(result, old(jobs)[jobId], tick.sequence, catalogClosed))
    {
      if jobId !in jobs {
        return Err(JobNotFound);
      }
      var record, tick := jobs[jobId], Tick(now, later, NextSequence(nextTerminalSequence));
      if Immutable(record) {
        UnchangedIsEdited(View(), jobId, Commit(summary), tick);
        return if IsTerminal(record.status) then Ok(()) else Err(RevisionExhausted);
      }
      var cancelling := record.status.Cancelling?;
      record := record.(summary := if cancelling then None else Some(summary));
      record := record.(status := if cancelling then JobStatus.Cancelled else JobStatus.Completed);
      result := NumberAndPublish(jobId, record, now, later, summary);
    }

    method NumberAndPublish(jobId: string, ended: JobRecord, now: nat, later: nat, ghost summary: Summary)
      returns (result: Result<(), RegistryError>)
      requires ValidTables() && jobId in jobs && !Immutable(jobs[jobId])
      requires ended.terminalSequence == jobs[jobId].terminalSequence
      requires var tick := Tick(now, later, NextSequence(nextTerminalSequence));
        Prepare(jobs[jobId], Commit(summary), tick)
        == if tick.sequence.None? then Unpublished(ended) else Publish(ended.(terminalSequence := tick.sequence))
      modifies this`jobs, this`nextTerminalSequence, this`catalog, this`catalogRevision, this`catalogClosed
      ensures ValidTables()
          && var tick := Tick(now, later, NextSequence(old(nextTerminalSequence)));
             Edited(old(View()), View(), jobId, Commit(summary), tick)
      ensures CommitAnswer(result, old(jobs)[jobId], NextSequence(old(nextTerminalSequence)), catalogClosed)
    {
      RequestIsAnswered(View(), jobId, Commit(summary), Tick(now, later, NextSequence(nextTerminalSequence)));
      var record, tick := ended, Tick(now, later, NextSequence(nextTerminalSequence));
      assert record.terminalSequence == None by {
        assert PartSound(View(), JobsPart);
        assert JobAt(jobs, nextJobId, nextTerminalSequence, jobId);
      }
      var sequence := AllocateTerminalSequence();
      if sequence.None? {
        jobs := jobs[jobId := record];
        EditKeepsSound(old(View()), View(), jobId, Commit(summary), tick);
        return Err(TerminalSequenceExhausted);
      }
      record := record.(terminalSequence := sequence);
      var published, announced := Conclude(jobId, record, true, tick, Commit(summary), old(View()));
      return if !published then Err(RevisionExhausted)
             else if !announced then Err(CatalogRevisionExhausted)
             else Ok(());
    }

    // -------------------------------------------------------------------------------------------
    // Subscriptions
    // -------------------------------------------------------------------------------------------

    /** The common end of the three registrations. */
    method Register(owner: string, jobId: Option<string>) returns (result: Result<string, RegistryError>)
      requires ValidTables() && |subscriptions| < MAX_PROCESS_SUBSCRIBERS
      requires OwnedProperly(NewSubscription(owner, jobId), jobs.Keys)
      requires jobId.Some? ==> |Subscribers(subscriptions, jobId.value)| < MAX_SUBSCRIBERS_PER_JOB
      modifies this`subscriptions, this`nextSubscriptionId
      ensures ValidTables()
      ensures if old(nextSubscriptionId) >= U64_MAX then result == Err(SubscriptionIdExhausted) && View() == old(View())
              else result.Ok? && Registers(old(View()), View(), owner, jobId, result.value)
    {
      if nextSubscriptionId >= U64_MAX {
        return Err(SubscriptionIdExhausted);
      }
      RegistrationRegisters(View(), owner, jobId);
      nextSubscriptionId := nextSubscriptionId + 1;
      var id := SubscriptionId(nextSubscriptionId);
      subscriptions := subscriptions[id := NewSubscription(owner, jobId)];
      assert View() == Registered(old(View()), NewSubscription(owner, jobId));
      return Ok(id);
    }

    /** `register_accepted_subscription` and `register_catalog_subscription`, which differ in what they forbid as. */
    method RegisterMainSubscription(owner: string, forbidden: RegistryError)
      returns (result: Result<string, RegistryError>)
      requires ValidTables() && (forbidden == AcceptedJobsForbidden || forbidden == CatalogForbidden)
      modifies this`subscriptions, this`nextSubscriptionId
      ensures ValidTables()
      ensures result == Err(forbidden) <==> owner != MAIN_WINDOW
      ensures result == Err(SubscriptionCapacity)
          <==> owner == MAIN_WINDOW && |old(subscriptions)| >= MAX_PROCESS_SUBSCRIBERS
      ensures result == Err(SubscriptionIdExhausted) <==>
                owner == MAIN_WINDOW && |old(subscriptions)| < MAX_PROCESS_SUBSCRIBERS
                    && old(nextSubscriptionId) >= U64_MAX
      ensures result.Err? ==>
                View() == old(View()) && result.error in {forbidden, SubscriptionCapacity, SubscriptionIdExhausted}
      ensures result.Ok? ==> Registers(old(View()), View(), owner, None, result.value)
    {
      if owner != MAIN_WINDOW {
        return Err(forbidden);
      }
      if |subscriptions| >= MAX_PROCESS_SUBSCRIBERS {
        return Err(SubscriptionCapacity);
      }
      result := Register(owner, None);
    }

    /** `register_job_subscription`: only the task window of a live job may follow it. */
    method RegisterJobSubscription(owner: string, jobId: string) returns (result: Result<string, RegistryError>)
      requires ValidTables()
      modifies this`subscriptions, this`nextSubscriptionId
      ensures ValidTables()
      ensures var allowed, room, found := owner == "task-" + jobId, |old(subscriptions)| < MAX_PROCESS_SUBSCRIBERS,
            jobId in old(jobs);
          var place := |Subscribers(old(subscriptions), jobId)| < MAX_SUBSCRIBERS_PER_JOB;
        && (result == Err(JobSubscriptionForbidden) <==> !allowed)
        && (result == Err(SubscriptionCapacity) <==> allowed && !room)
        && (result == Err(JobSubscriptionCapacity) <==> allowed && room && !place)
        && (result == Err(JobNotFound) <==> allowed && room && place && !found)
        && (result == Err(SubscriptionIdExhausted)
            <==> allowed && room && place && found && old(nextSubscriptionId) >= U64_MAX)
        && (result.Ok? <==> allowed && room && place && found && old(nextSubscriptionId) < U64_MAX)
      ensures result.Err? ==> View() == old(View())
      ensures result.Ok? ==> Registers(old(View()), View(), owner, Some(jobId), result.value)
    {
      if owner != TaskWindow(jobId) {
        return Err(JobSubscriptionForbidden);
      }
      if |subscriptions| >= MAX_PROCESS_SUBSCRIBERS {
        return Err(SubscriptionCapacity);
      }
      var followers := set id | id in subscriptions && subscriptions[id].jobId == Some(jobId);
      assert followers == Subscribers(subscriptions, jobId);
      if |followers| >= MAX_SUBSCRIBERS_PER_JOB {
        return Err(JobSubscriptionCapacity);
      }
      if jobId !in jobs {
        return Err(JobNotFound);
      }
      result := Register(owner, Some(jobId));
    }

    /** `acknowledge_subscription`; `open` says whether the forwarding task still receives commands. */
    method AcknowledgeSubscription(owner: string, id: string, revision: nat, open: bool)
      returns (result: Result<(), RegistryError>)
      requires ValidTables()
      modifies this`subscriptions
      ensures ValidTables()
      ensures result == Err(SubscriptionNotFound) <==> id !in old(subscriptions)
      ensures result == Err(SubscriptionForbidden)
          <==> id in old(subscriptions) && old(subscriptions)[id].owner != owner
      ensures id !in old(subscriptions) || old(subscriptions)[id].owner != owner ==> subscriptions == old(subscriptions)
      ensures id in old(subscriptions) && old(subscriptions)[id].owner == owner ==>
                var before := old(subscriptions)[id];
                var first := before.flow == Protocol.Flow(Some(revision), false);
                var room := open && |before.commands| < Protocol.CHANNEL_CAPACITY;
                && (result == Err(AckRefused(Protocol.NewerThanInFlight))
                    <==> before.flow.inFlight.Some? && revision > before.flow.inFlight.value)
                && (result == Err(AckRefused(Protocol.Busy)) <==> first && !room)
                && (result.Err? ==> result.error.AckRefused?)
                && subscriptions
                   == (if first && room
                       then old(subscriptions)[id := before.(flow := Protocol.Flow(Some(revision), true),
                                                             commands := before.commands + [Protocol.Ack(revision)])]
                       else old(subscriptions))
                && Takes(old(View()), ChangeFlow(id, subscriptions[id]), View())
    {
      if id !in subscriptions {
        return Err(SubscriptionNotFound);
      }
      var subscription := subscriptions[id];
      if subscription.owner != owner {
        return Err(SubscriptionForbidden);
      }
      var outcome := Protocol.Acknowledge(subscription.flow, subscription.commands, open, revision);
      subscription := subscription.(flow := outcome.flow, commands := outcome.commands);
      FlowChangeKeepsSound(View(), id, subscription);
      subscriptions := subscriptions[id := subscription];
      return if outcome.reply.Ok? then Ok(()) else Err(AckRefused(outcome.reply.error));
    }

    /** What the forwarding task of a subscription does, outside the registry's lock, to the state they share. */
    method ForwarderMoves(id: string, flow: Protocol.Flow, commands: seq<Protocol.Command>)
      requires ValidTables() && id in subscriptions
      modifies this`subscriptions
      ensures ValidTables()
      ensures subscriptions == old(subscriptions)[id := old(subscriptions)[id].(flow := flow, commands := commands)]
      ensures Takes(old(View()), ChangeFlow(id, subscriptions[id]), View())
    {
      var subscription := subscriptions[id].(flow := flow, commands := commands);
      FlowChangeKeepsSound(View(), id, subscription);
      subscriptions := subscriptions[id := subscription];
    }

    /** `unsubscribe`: only its owner can end a subscription this way. */
    method Unsubscribe(owner: string, id: string) returns (result: Result<(), RegistryError>)
      requires ValidTables()
      modifies this`subscriptions
      ensures ValidTables()
      ensures result.Ok? <==> id in old(subscriptions) && old(subscriptions)[id].owner == owner
      ensures result == Err(SubscriptionNotFound) <==> id !in old(subscriptions)
      ensures result == Err(SubscriptionForbidden)
          <==> id in old(subscriptions) && old(subscriptions)[id].owner != owner
      ensures subscriptions == if result.Ok? then old(subscriptions) - {id} else old(subscriptions)
      ensures Takes(old(View()), DropSubscriptions(subscriptions), View())
    {
      if id !in subscriptions {
        return Err(SubscriptionNotFound);
      }
      if subscriptions[id].owner != owner {
        return Err(SubscriptionForbidden);
      }
      UnsubscriptionKeepsSound(View(), subscriptions - {id});
      subscriptions := subscriptions - {id};
      return Ok(());
    }

    /** `cleanup_subscription`, when a forwarding task ends. */
    method CleanupSubscription(id: string)
      requires ValidTables()
      modifies this`subscriptions
      ensures ValidTables() && subscriptions == old(subscriptions) - {id}
      ensures Takes(old(View()), DropSubscriptions(subscriptions), View())
    {
      UnsubscriptionKeepsSound(View(), subscriptions - {id});
      subscriptions := subscriptions - {id};
    }

    /** `cleanup_owner_subscriptions`, when a window closes. */
    method CleanupOwnerSubscriptions(owner: string)
      requires ValidTables()
      modifies this`subscriptions
      ensures ValidTables() && subscriptions == WithoutOwner(old(subscriptions), owner)
      ensures forall id :: id in subscriptions <==> id in old(subscriptions) && old(subscriptions)[id].owner != owner
      ensures forall id :: id in subscriptions ==> subscriptions[id] == old(subscriptions)[id]
      ensures Takes(old(View()), DropSubscriptions(subscriptions), View())
    {
      var ids := set id | id in subscriptions && subscriptions[id].owner == owner;
      assert subscriptions - ids == WithoutOwner(subscriptions, owner);
      LeavingOwnerIsSound(View(), owner);
      subscriptions := RemoveAll(subscriptions, ids);
      assert View() == old(View()).(subscriptions := WithoutOwner(old(subscriptions), owner));
    }

    /** `acknowledge_accepted_job`: the acceptances up to a queued one leave the queue, and no others. */
    method AcknowledgeAcceptedJob(owner: string, jobId: string, revision: nat)
      returns (result: Result<(), RegistryError>)
      requires ValidFeed()
      modifies this`acceptedJobs, this`acceptedValue
      ensures ValidFeed()
      ensures result == Err(AcceptedJobsForbidden) <==> owner != MAIN_WINDOW
      ensures result.Ok? <==> && owner == MAIN_WINDOW
                              && exists i :: 0 <= i < |old(acceptedJobs)| && old(acceptedJobs)[i].job.jobId == jobId
                                             && old(acceptedJobs)[i].revision == revision
      ensures result.Err? ==>
                acceptedJobs == old(acceptedJobs) && result.error in {AcceptedJobsForbidden, AcceptedJobNotFound}
      ensures result.Ok? ==>
                var acked := nextAcceptanceRevision - |old(acceptedJobs)|;
                acked < revision <= nextAcceptanceRevision && acceptedJobs == old(acceptedJobs)[revision - acked..]
    {
      if owner != MAIN_WINDOW {
        return Err(AcceptedJobsForbidden);
      }
      if !HasAcceptance(acceptedJobs, jobId, revision) {
        return Err(AcceptedJobNotFound);
      }
      acceptedJobs := DropAcknowledged(acceptedJobs, revision, nextAcceptanceRevision);
      acceptedValue := acceptedJobs;
      return Ok(());
    }
  }

  /** The status part of `emit_direct_event`, step by step. */
  method DirectStep(record: JobRecord, emitted: Event) returns (edited: JobRecord)
    ensures var event := Rewritten(record.status, emitted);
      edited == record.(status := DirectStatus(record.status, event.kind),
                        summary := if event.kind.Cancelled? then None else record.summary,
                        latestFailure := if event.kind.Failed? then Some(event) else record.latestFailure)
  {
    edited := record;
    var event := emitted;
    if edited.status.Cancelling? && (event.kind.Completed? || event.kind.Failed?) {
      edited := edited.(summary := None);
      event := CancelledEvent(event.jobKind);
    }
    match event.kind {
      case Started =>
        if edited.status.Queued? || edited.status.Running? {
          edited := edited.(status := JobStatus.Running);
        }
      case Completed => edited := edited.(status := JobStatus.Completed);
      case Failed => edited := edited.(status := JobStatus.Failed);
      case Cancelled =>
        edited := edited.(summary := None);
        edited := edited.(status := JobStatus.Cancelled);
      case Paused => edited := edited.(status := JobStatus.Paused);
      case Resumed =>
        if edited.status.Paused? {
          edited := edited.(status := JobStatus.Running);
        }
      case _ =>
    }
    if event.kind.Failed? {
      edited := edited.(latestFailure := Some(event));
    }
  }

  lemma EmptyIsSound(s: RegistryState.State)
    requires s == RegistryState.State(0, 0, 0, 0, false, Catalog(0, []), map[], map[])
    ensures Sound(s)
  {
    forall jobId ensures |Subscribers(s.subscriptions, jobId)| <= MAX_SUBSCRIBERS_PER_JOB {
      assert Subscribers(s.subscriptions, jobId) == {};
    }
    assert PartSound(s, JobsPart) && PartSound(s, SubscriptionsPart) && PartSound(s, CatalogPart);
  }

  lemma RoomIsMade(s: RegistryState.State, t: RegistryState.State)
    requires Sound(s) && !CanEvict(t.jobs) && Evicted(s.jobs, s.subscriptions, t.jobs, t.subscriptions)
    requires t == s.(nextJobId := SaturatingAdd(s.nextJobId, 1), jobs := t.jobs, subscriptions := t.subscriptions)
    ensures t == Cleared(s, t.jobs) && EvictedJobs(s.jobs, t.jobs)
    ensures |t.jobs| >= MAX_ADMITTED_JOBS <==> !CanEvict(s.jobs) && |s.jobs| >= MAX_ADMITTED_JOBS
  {
    assert PartSound(s, JobsPart);
    EvictionMakesRoom(s.jobs, t.jobs);
  }

  lemma RoomRefused(s: RegistryState.State, t: RegistryState.State, kept: Jobs)
    requires Sound(s) && t == Cleared(s, kept) && EvictedJobs(s.jobs, kept) && |kept| >= MAX_ADMITTED_JOBS
    requires !CanEvict(s.jobs) && |s.jobs| >= MAX_ADMITTED_JOBS
    ensures Sound(t) && Run([s, t], [RefuseForRoom])
  {
    CapacityKeepsSound(s, kept, t.subscriptions);
    RunOfOne(s, RefuseForRoom, t);
  }

  lemma LeavingOwnerIsSound(s: RegistryState.State, owner: string)
    requires Sound(s)
    ensures var left := WithoutOwner(s.subscriptions, owner);
      Sound(s.(subscriptions := left)) && Takes(s, DropSubscriptions(left), s.(subscriptions := left))
  {
    UnsubscriptionKeepsSound(s, WithoutOwner(s.subscriptions, owner));
  }

  lemma AdmissionRetains(kept: Jobs, jobId: string, record: JobRecord, issued: nat, sequences: nat)
    requires JobsSound(kept, issued, sequences) && !CanEvict(kept) && !IsTerminal(record.status)
    ensures sequences < U64_MAX ==> |Ended(kept[jobId := record])| < MAX_RETAINED_TERMINAL_JOBS
  {
    EndedAfterAdmission(kept, jobId, record);
    if sequences < U64_MAX {
      RetentionBound(kept, issued, sequences);
    }
  }
}
