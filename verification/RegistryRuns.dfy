/**
 * Whole runs of the registry: any sequence of its critical sections, each described as the contract of its method
 * describes it. What the registry does to one job in a run is a run of that job's own operations.
 */
module RegistryRuns {
  import opened Wrappers
  import opened JobLifecycle
  import opened JobTable
  import opened SubscriptionTable
  import opened RegistryState

  datatype Section =
    | Operate(id: string, op: Op, tick: Tick)
    | Admit(kept: Jobs, id: string, kind: JobKind, now: nat)
    | RefuseAdmission(kept: Jobs, id: string)
    | RefuseForRoom
    | Dismiss(id: string)
    | Subscribe(subscription: Subscription)
    | DropSubscriptions(left: Subscriptions)
    | ChangeFlow(id: string, subscription: Subscription)

  ghost predicate MayFollow(s: State, subscription: Subscription) {
    && OwnedProperly(subscription, s.jobs.Keys)
    && (subscription.jobId.Some? ==> |Subscribers(s.subscriptions, subscription.jobId.value)| < MAX_SUBSCRIBERS_PER_JOB)
  }

  ghost predicate Takes(s: State, section: Section, t: State) {
    match section
    case Operate(id, op, tick) =>
      id in s.jobs && tick.sequence == NextSequence(s.nextTerminalSequence) && Edited(s, t, id, op, tick)
    case Admit(kept, id, kind, now) =>
      EvictedJobs(s.jobs, kept) && NextId(s.nextJobId, s.jobs, id) && Admitted(s, t, kept, id, kind, now)
          && !t.catalogClosed
    case RefuseAdmission(kept, id) =>
      EvictedJobs(s.jobs, kept) && NextId(s.nextJobId, s.jobs, id) && Refused(s, t, kept, id)
    case RefuseForRoom =>
      !CanEvict(s.jobs) && |s.jobs| >= MAX_ADMITTED_JOBS && t == s.(nextJobId := SaturatingAdd(s.nextJobId, 1))
    case Dismiss(id) => id in s.jobs && IsTerminal(s.jobs[id].status) && Dismissed(s, t, id)
    case Subscribe(subscription) =>
      && s.nextSubscriptionId < U64_MAX && |s.subscriptions| < MAX_PROCESS_SUBSCRIBERS && MayFollow(s, subscription)
      && t == Registered(s, subscription)
    case DropSubscriptions(left) =>
      (forall id :: id in left ==> id in s.subscriptions && left[id] == s.subscriptions[id])
          && t == s.(subscriptions := left)
    case ChangeFlow(id, subscription) =>
      && id in s.subscriptions && subscription.owner == s.subscriptions[id].owner
          && subscription.jobId == s.subscriptions[id].jobId
      && t == s.(subscriptions := s.subscriptions[id := subscription])
  }

  // ---------------------------------------------------------------------------------------------
  // One section
  // ---------------------------------------------------------------------------------------------

  lemma EvictionKeepsNextJobs(s: State, kept: Jobs)
    requires Sound(s) && EvictedJobs(s.jobs, kept)
    ensures JobsSound(kept, SaturatingAdd(s.nextJobId, 1), s.nextTerminalSequence)
    ensures forall id :: id in kept ==> id in s.jobs && kept[id] == s.jobs[id]
  {
    assert PartSound(s, JobsPart);
    forall id | id in kept ensures id in s.jobs && kept[id] == s.jobs[id] {
      assert UntouchedAt(s.jobs, kept, id);
    }
    ShrinkKeepsJobs(s.jobs, s.nextJobId, s.nextTerminalSequence, kept);
    MoreIssuedKeepsJobs(kept, s.nextJobId, SaturatingAdd(s.nextJobId, 1), s.nextTerminalSequence);
  }

  lemma RoomRefusalKeepsSound(s: State)
    requires Sound(s)
    ensures Sound(s.(nextJobId := SaturatingAdd(s.nextJobId, 1)))
  {
    var t := s.(nextJobId := SaturatingAdd(s.nextJobId, 1));
    assert PartSound(s, JobsPart) && PartSound(s, SubscriptionsPart) && PartSound(s, CatalogPart);
    MoreIssuedKeepsJobs(s.jobs, s.nextJobId, t.nextJobId, s.nextTerminalSequence);
    assert PartSound(t, JobsPart) && PartSound(t, SubscriptionsPart) && PartSound(t, CatalogPart);
  }

  /** Every section keeps jobs, catalog and subscriptions sound. */
  lemma SectionKeepsSound(s: State, section: Section, t: State)
    requires Sound(s) && Takes(s, section, t)
    ensures Sound(t)
  {
    match section
    case Operate(id, op, tick) => EditKeepsSound(s, t, id, op, tick);
    case Admit(kept, id, kind, now) =>
      EvictionKeepsNextJobs(s, kept);
      AdmissionKeepsSound(s, t, kept, id, kind, now);
    case RefuseAdmission(kept, id) =>
      EvictionKeepsNextJobs(s, kept);
      RefusalKeepsSound(s, t, kept, id);
    case RefuseForRoom => RoomRefusalKeepsSound(s);
    case Dismiss(id) => DismissalKeepsSound(s, t, id);
    case Subscribe(subscription) => RegistrationKeepsSound(s, subscription);
    case DropSubscriptions(left) => UnsubscriptionKeepsSound(s, left);
    case ChangeFlow(id, subscription) => FlowChangeKeepsSound(s, id, subscription);
  }

  /** What a critical section does to the job `id`: an operation on that job, or nothing. */
  function StepOn(section: Section, id: string): seq<Step> {
    if section.Operate? && section.id == id then [Step(section.op, section.tick)] else []
  }

  /**
   * A critical section changes a job by an operation on that job or not at all, removes it only after its end, and
   * never brings back an id that was issued before.
   */
  ghost predicate JobFollows(s: State, section: Section, t: State, id: string) {
    && (id in s.jobs && id in t.jobs ==> t.jobs[id] == After(s.jobs[id], StepOn(section, id)))
    && (id in s.jobs && id !in t.jobs ==> IsTerminal(s.jobs[id].status))
    && (id !in s.jobs && IssuedJob(s.nextJobId, id) ==> id !in t.jobs)
  }

  lemma AdmissionFollows(s: State, section: Section, t: State, id: string)
    requires Takes(s, section, t) && (section.Admit? || section.RefuseAdmission?)
    requires s.nextJobId < U64_MAX && IssuedJob(s.nextJobId, id)
    ensures JobFollows(s, section, t, id)
  {
    assert UntouchedAt(s.jobs, section.kept, id);
    assert id != section.id;
  }

  lemma OperationFollows(s: State, section: Section, t: State, id: string)
    requires section.Operate? && Takes(s, section, t)
    ensures JobFollows(s, section, t, id)
  {
    var step := Step(section.op, section.tick);
    if section.id == id {
      assert [step][1..] == [];
      assert After(s.jobs[id], [step]) == Apply(s.jobs[id], step.op, step.tick);
    }
  }

  lemma SectionFollows(s: State, section: Section, t: State, id: string)
    requires Sound(s) && Takes(s, section, t) && s.nextJobId < U64_MAX && IssuedJob(s.nextJobId, id)
    ensures JobFollows(s, section, t, id)
  {
    match section
    case Operate(_, _, _) => OperationFollows(s, section, t, id);
    case Admit(_, _, _, _) => AdmissionFollows(s, section, t, id);
    case RefuseAdmission(_, _) => AdmissionFollows(s, section, t, id);
    case _ =>
  }

  // ---------------------------------------------------------------------------------------------
  // Runs
  // ---------------------------------------------------------------------------------------------

  ghost predicate Run(states: seq<State>, sections: seq<Section>)
    decreases |sections|
  {
    && |states| == |sections| + 1
    && (sections == [] || (Takes(states[0], sections[0], states[1]) && Run(states[1..], sections[1..])))
  }

  lemma RunOfOne(s: State, section: Section, t: State)
    ensures Run([s, t], [section]) <==> Takes(s, section, t)
  {
    assert [s, t][1..] == [t] && [section][1..] == [];
  }

  function Last(states: seq<State>): State
    requires states != []
  {
    states[|states| - 1]
  }

  lemma {:induction false} RunKeepsSound(states: seq<State>, sections: seq<Section>)
    requires Run(states, sections) && Sound(states[0])
    ensures Sound(Last(states))
    decreases |sections|
  {
    if sections != [] {
      SectionKeepsSound(states[0], sections[0], states[1]);
      RunKeepsSound(states[1..], sections[1..]);
    }
  }

  /** The catalogs of a run: each is the one before it or has a larger revision. */
  lemma {:induction false} CatalogsAdvance(states: seq<State>, sections: seq<Section>)
    requires Run(states, sections) && Sound(states[0])
    ensures Last(states).catalog == states[0].catalog || Last(states).catalog.revision > states[0].catalog.revision
    ensures states[0].catalogClosed ==> Last(states).catalogClosed
    decreases |sections|
  {
    if sections != [] {
      CatalogStep(states[0], sections[0], states[1]);
      SectionKeepsSound(states[0], sections[0], states[1]);
      CatalogsAdvance(states[1..], sections[1..]);
    }
  }

  lemma CatalogStep(s: State, section: Section, t: State)
    requires Sound(s) && Takes(s, section, t)
    ensures t.catalog == s.catalog || t.catalog.revision > s.catalog.revision
    ensures s.catalogClosed ==> t.catalogClosed
  {
    assert PartSound(s, CatalogPart);
  }

  /** The operations a run performs on one job. */
  function StepsOn(sections: seq<Section>, id: string): seq<Step> {
    if sections == [] then [] else StepOn(sections[0], id) + StepsOn(sections[1..], id)
  }

  lemma {:induction false} AfterConcat(record: JobRecord, steps: seq<Step>, more: seq<Step>)
    ensures After(record, steps + more) == After(After(record, steps), more)
    decreases |steps|
  {
    if steps == [] {
      assert steps + more == more;
    } else {
      assert (steps + more)[1..] == steps[1..] + more;
      AfterConcat(Apply(record, steps[0].op, steps[0].tick), steps[1..], more);
    }
  }

  lemma JobCounterGrows(s: State, section: Section, t: State)
    requires Takes(s, section, t) && s.nextJobId <= U64_MAX
    ensures s.nextJobId <= t.nextJobId <= U64_MAX
  {
  }

  lemma {:induction false} RunCounterGrows(states: seq<State>, sections: seq<Section>)
    requires Run(states, sections) && Sound(states[0])
    ensures states[0].nextJobId <= Last(states).nextJobId
    decreases |sections|
  {
    if sections != [] {
      assert PartSound(states[0], JobsPart);
      JobCounterGrows(states[0], sections[0], states[1]);
      SectionKeepsSound(states[0], sections[0], states[1]);
      RunCounterGrows(states[1..], sections[1..]);
    }
  }

  /** An id that has left the table never returns, as long as job ids last. */
  lemma {:induction false} JobIdsAreNotReused(states: seq<State>, sections: seq<Section>, id: string)
    requires Run(states, sections) && Sound(states[0]) && Last(states).nextJobId < U64_MAX
    requires IssuedJob(states[0].nextJobId, id) && id !in states[0].jobs
    ensures id !in Last(states).jobs
    decreases |sections|
  {
    if sections != [] {
      RunCounterGrows(states, sections);
      SectionFollows(states[0], sections[0], states[1], id);
      FirstSectionIssues(states, sections, id);
      JobIdsAreNotReused(states[1..], sections[1..], id);
    }
  }

  lemma FirstSectionIssues(states: seq<State>, sections: seq<Section>, id: string)
    requires Run(states, sections) && Sound(states[0]) && sections != [] && IssuedJob(states[0].nextJobId, id)
    ensures Sound(states[1]) && IssuedJob(states[1].nextJobId, id) && Last(states[1..]) == Last(states)
  {
    assert PartSound(states[0], JobsPart);
    JobCounterGrows(states[0], sections[0], states[1]);
    SectionKeepsSound(states[0], sections[0], states[1]);
    JobTable.IssuedIsMonotone(states[0].nextJobId, states[1].nextJobId, id);
  }

  /** A job that is in the table before and after a run went through exactly the operations the run performed on it. */
  lemma {:induction false} JobHistory(states: seq<State>, sections: seq<Section>, id: string)
    requires Run(states, sections) && Sound(states[0]) && Last(states).nextJobId < U64_MAX
    requires id in states[0].jobs && id in Last(states).jobs
    ensures Last(states).jobs[id] == After(states[0].jobs[id], StepsOn(sections, id))
    decreases |sections|
  {
    if sections != [] {
      TableIdIsIssued(states[0], id);
      RunCounterGrows(states, sections);
      FirstSectionIssues(states, sections, id);
      SectionFollows(states[0], sections[0], states[1], id);
      if id !in states[1].jobs {
        JobIdsAreNotReused(states[1..], sections[1..], id);
      }
      JobHistory(states[1..], sections[1..], id);
      AfterConcat(states[0].jobs[id], StepOn(sections[0], id), StepsOn(sections[1..], id));
    }
  }

  lemma TableIdIsIssued(s: State, id: string)
    requires Sound(s) && id in s.jobs
    ensures IssuedJob(s.nextJobId, id) && Lawful(s.jobs[id]) && SnapshotSound(s.jobs[id])
  {
    assert PartSound(s, JobsPart);
    assert JobAt(s.jobs, s.nextJobId, s.nextTerminalSequence, id);
  }

  /** A job leaves the table only after it ended: what the run did to it until then made it terminal. */
  lemma {:induction false} OnlyEndedJobsLeave(states: seq<State>, sections: seq<Section>, id: string) returns (n: nat)
    requires Run(states, sections) && Sound(states[0]) && Last(states).nextJobId < U64_MAX
    requires id in states[0].jobs && id !in Last(states).jobs
    ensures n <= |sections| && IsTerminal(After(states[0].jobs[id], StepsOn(sections[..n], id)).status)
    decreases |sections|
  {
    TableIdIsIssued(states[0], id);
    RunCounterGrows(states, sections);
    FirstSectionIssues(states, sections, id);
    SectionFollows(states[0], sections[0], states[1], id);
    if id !in states[1].jobs {
      n := 0;
      assert sections[..0] == [];
    } else {
      var m := OnlyEndedJobsLeave(states[1..], sections[1..], id);
      n := m + 1;
      assert sections[..n][1..] == sections[1..][..m];
      AfterConcat(states[0].jobs[id], StepOn(sections[0], id), StepsOn(sections[1..][..m], id));
    }
  }

  lemma SubscriptionStep(s: State, section: Section, t: State, id: string)
    requires Takes(s, section, t) && IssuedSubscription(s.nextSubscriptionId, id) && id !in s.subscriptions
    ensures IssuedSubscription(t.nextSubscriptionId, id) && id !in t.subscriptions
  {
    if section.Subscribe? {
      var n :| 1 <= n <= s.nextSubscriptionId && id == SubscriptionId(n);
      if id in t.subscriptions {
        SubscriptionIdInjective(n, s.nextSubscriptionId + 1);
      }
      SubscriptionTable.IssuedIsMonotone(s.nextSubscriptionId, t.nextSubscriptionId, id);
    }
  }

  /** A subscription id that has left the table never returns. */
  lemma {:induction false} SubscriptionIdsAreNotReused(states: seq<State>, sections: seq<Section>, id: string)
    requires Run(states, sections) && IssuedSubscription(states[0].nextSubscriptionId, id)
        && id !in states[0].subscriptions
    ensures id !in Last(states).subscriptions
    decreases |sections|
  {
    if sections != [] {
      SubscriptionStep(states[0], sections[0], states[1], id);
      SubscriptionIdsAreNotReused(states[1..], sections[1..], id);
    }
  }

  /** The subscription is there with its owner and its job exactly as long as that job is; others are simply there. */
  ghost predicate FollowsItsJob(subscription: Subscription, t: State, id: string) {
    && (id in t.subscriptions <==> subscription.jobId.None? || subscription.jobId.value in t.jobs)
    && (id in t.subscriptions ==>
          t.subscriptions[id].owner == subscription.owner && t.subscriptions[id].jobId == subscription.jobId)
  }

  predicate Drops(section: Section, id: string) {
    section.DropSubscriptions? && id !in section.left
  }

  lemma SubscriptionStays(s: State, section: Section, t: State, id: string)
    requires Sound(s) && Takes(s, section, t) && s.nextJobId < U64_MAX && id in s.subscriptions && !Drops(section, id)
    ensures FollowsItsJob(s.subscriptions[id], t, id)
  {
    SubscriptionsAreLive(s, id);
    match section
    case Admit(_, _, _, _) => StaysWithKeptJobs(s, section, t, id);
    case RefuseAdmission(_, _) => StaysWithKeptJobs(s, section, t, id);
    case Subscribe(_) =>
      assert PartSound(s, SubscriptionsPart);
      NextIdIsFresh(s.subscriptions, s.nextSubscriptionId, s.jobs.Keys);
    case _ =>
  }

  lemma StaysWithKeptJobs(s: State, section: Section, t: State, id: string)
    requires Takes(s, section, t) && (section.Admit? || section.RefuseAdmission?) && s.nextJobId < U64_MAX
    requires id in s.subscriptions
    requires s.subscriptions[id].jobId.Some? ==> s.subscriptions[id].jobId.value in s.jobs
    ensures FollowsItsJob(s.subscriptions[id], t, id)
  {
    assert section.id !in s.jobs;
  }

  /** Over every run: unless somebody drops it, a subscription to a job lives exactly as long as the job is kept. */
  lemma {:induction false} SubscriptionHistory(states: seq<State>, sections: seq<Section>, id: string)
    requires Run(states, sections) && Sound(states[0]) && Last(states).nextJobId < U64_MAX
    requires id in states[0].subscriptions && forall i :: 0 <= i < |sections| ==> !Drops(sections[i], id)
    ensures FollowsItsJob(states[0].subscriptions[id], Last(states), id)
    decreases |sections|
  {
    RunCounterGrows(states, sections);
    SubscriptionsAreLive(states[0], id);
    if sections != [] {
      SubscriptionStays(states[0], sections[0], states[1], id);
      SectionKeepsSound(states[0], sections[0], states[1]);
      if id in states[1].subscriptions {
        SubscriptionHistory(states[1..], sections[1..], id);
      } else {
        GoneWithItsJob(states, sections, id);
      }
    }
  }

  lemma GoneWithItsJob(states: seq<State>, sections: seq<Section>, id: string)
    requires Run(states, sections) && sections != [] && Sound(states[0]) && Last(states).nextJobId < U64_MAX
    requires id in states[0].subscriptions && states[0].subscriptions[id].jobId.Some?
    requires states[0].subscriptions[id].jobId.value in states[0].jobs
    requires id !in states[1].subscriptions && states[0].subscriptions[id].jobId.value !in states[1].jobs
    ensures id !in Last(states).subscriptions && states[0].subscriptions[id].jobId.value !in Last(states).jobs
  {
    RunCounterGrows(states, sections);
    TableIdIsIssued(states[0], states[0].subscriptions[id].jobId.value);
    FirstSectionIssues(states, sections, states[0].subscriptions[id].jobId.value);
    JobIdsAreNotReused(states[1..], sections[1..], states[0].subscriptions[id].jobId.value);
    assert PartSound(states[0], SubscriptionsPart);
    assert SubscriptionAt(states[0].subscriptions, states[0].nextSubscriptionId, states[0].jobs.Keys, id);
    SubscriptionCounterGrows(states[0], sections[0], states[1], id);
    SubscriptionIdsAreNotReused(states[1..], sections[1..], id);
  }

  lemma SubscriptionCounterGrows(s: State, section: Section, t: State, id: string)
    requires Takes(s, section, t) && IssuedSubscription(s.nextSubscriptionId, id)
    ensures IssuedSubscription(t.nextSubscriptionId, id)
  {
    SubscriptionTable.IssuedIsMonotone(s.nextSubscriptionId, t.nextSubscriptionId, id);
  }

  /**
   * Over every run of the registry: a job whose cancellation was accepted, and that no direct pause event reached,
   * is still being cancelled or cancelled without a summary whenever it is in the table.
   */
  lemma CancelledJobStaysCancelled(states: seq<State>, sections: seq<Section>, id: string)
    requires Run(states, sections) && Sound(states[0]) && Last(states).nextJobId < U64_MAX
    requires id in states[0].jobs && id in Last(states).jobs
    requires CancelPending(states[0].jobs[id]) && NoDirectPause(StepsOn(sections, id))
    ensures CancelPending(Last(states).jobs[id])
  {
    JobHistory(states, sections, id);
    CancelIsKept(states[0].jobs[id], StepsOn(sections, id));
  }

  /** And a job that has ended stays exactly as it ended for as long as it is kept. */
  lemma EndedJobStaysAsItEnded(states: seq<State>, sections: seq<Section>, id: string)
    requires Run(states, sections) && Sound(states[0]) && Last(states).nextJobId < U64_MAX
    requires id in states[0].jobs && id in Last(states).jobs && IsTerminal(states[0].jobs[id].status)
    ensures Last(states).jobs[id] == states[0].jobs[id]
  {
    JobHistory(states, sections, id);
    TerminalIsAbsorbing(states[0].jobs[id], StepsOn(sections, id));
  }
}
