/** The registry's table of jobs: admission, retention of ended jobs, and the published catalog. */
module JobTable {
  import opened Wrappers
  import opened Decimal
  import opened StringOrder
  import opened JobLifecycle

  const MAX_RETAINED_TERMINAL_JOBS := 100
  const MAX_ADMITTED_JOBS := 256

  type Jobs = map<string, JobRecord>

  // ---------------------------------------------------------------------------------------------
  // What holds of every job in the table
  // ---------------------------------------------------------------------------------------------

  ghost predicate IssuedJob(issued: nat, id: string) {
    exists n :: 1 <= n <= issued && id == ToDecimal(n)
  }

  /** A job has a sequence number exactly when it has ended, unless the numbers ran out. */
  ghost predicate Numbered(record: JobRecord, sequences: nat) {
    && (record.terminalSequence.Some? ==> IsTerminal(record.status) && record.terminalSequence.value <= sequences)
    && (IsTerminal(record.status) && record.terminalSequence.None? ==> sequences >= U64_MAX)
  }

  ghost predicate JobAt(jobs: Jobs, issued: nat, sequences: nat, id: string)
    requires id in jobs
  {
    && jobs[id].id == id && IssuedJob(issued, id)
    && Lawful(jobs[id]) && SnapshotSound(jobs[id]) && Numbered(jobs[id], sequences)
  }

  ghost predicate DistinctAt(jobs: Jobs, a: string, b: string)
    requires a in jobs && b in jobs
  {
    a != b && jobs[a].terminalSequence.Some? ==> jobs[a].terminalSequence != jobs[b].terminalSequence
  }

  ghost predicate DistinctSequences(jobs: Jobs) {
    forall a, b {:trigger DistinctAt(jobs, a, b)} :: a in jobs && b in jobs ==> DistinctAt(jobs, a, b)
  }

  ghost predicate JobsSound(jobs: Jobs, issued: nat, sequences: nat) {
    && |jobs| <= MAX_ADMITTED_JOBS && issued <= U64_MAX && sequences <= U64_MAX
    && DistinctSequences(jobs)
    && forall id {:trigger JobAt(jobs, issued, sequences, id)} :: id in jobs ==> JobAt(jobs, issued, sequences, id)
  }

  /** `allocate_terminal_sequence`, given the last number handed out. */
  function NextSequence(sequences: nat): Option<nat> {
    if sequences >= U64_MAX then None else Some(sequences + 1)
  }

  function SequencesAfter(sequences: nat, before: JobRecord, after: JobRecord): nat {
    if after.terminalSequence != before.terminalSequence then sequences + 1 else sequences
  }

  lemma EditNumbers(record: JobRecord, op: Op, tick: Tick)
    requires Lawful(record)
    ensures var edited := Outcome(record, Prepare(record, op, tick));
      && (edited.terminalSequence == record.terminalSequence
          || (record.terminalSequence.None? && edited.terminalSequence == tick.sequence))
      && (IsTerminal(edited.status) && edited.terminalSequence.None? ==>
            tick.sequence.None? || (IsTerminal(record.status) && record.terminalSequence.None?))
  {
  }

  /** One operation on a job hands out at most one number, to the job it ends. */
  lemma ApplyNumbers(record: JobRecord, op: Op, tick: Tick, sequences: nat)
    requires Lawful(record) && SnapshotSound(record) && Numbered(record, sequences)
    requires sequences <= U64_MAX && tick.sequence == NextSequence(sequences)
    ensures var after := Apply(record, op, tick);
      && Numbered(after, SequencesAfter(sequences, record, after))
          && SequencesAfter(sequences, record, after) <= U64_MAX
      && (after.terminalSequence == record.terminalSequence || after.terminalSequence == Some(sequences + 1))
  {
    ApplyKeepsFacts(record, op, tick);
    EditNumbers(record, op, tick);
    StepKeepsLawful(record, op, tick);
  }

  lemma EditKeepsDistinct(jobs: Jobs, issued: nat, sequences: nat, id: string, record: JobRecord)
    requires JobsSound(jobs, issued, sequences) && id in jobs
    requires record.terminalSequence == jobs[id].terminalSequence || record.terminalSequence == Some(sequences + 1)
    ensures DistinctSequences(jobs[id := record])
  {
    var after := jobs[id := record];
    forall a, b | a in after && b in after ensures DistinctAt(after, a, b) {
      assert DistinctAt(jobs, a, b);
      assert JobAt(jobs, issued, sequences, a) && JobAt(jobs, issued, sequences, b);
    }
  }

  /** Every operation on one job keeps the table sound. */
  lemma EditKeepsJobs(jobs: Jobs, issued: nat, sequences: nat, id: string, op: Op, tick: Tick)
    requires JobsSound(jobs, issued, sequences) && id in jobs && tick.sequence == NextSequence(sequences)
    ensures var after := Apply(jobs[id], op, tick);
      JobsSound(jobs[id := after], issued, SequencesAfter(sequences, jobs[id], after))
          && jobs[id := after].Keys == jobs.Keys
  {
    var record := Apply(jobs[id], op, tick);
    assert JobAt(jobs, issued, sequences, id);
    ApplyNumbers(jobs[id], op, tick, sequences);
    ApplyKeepsFacts(jobs[id], op, tick);
    EditKeepsId(jobs[id], op, tick);
    StepKeepsLawful(jobs[id], op, tick);
    EditKeepsDistinct(jobs, issued, sequences, id, record);
    SizeAfterUpdate(jobs, id, record);
    var after, sequences' := jobs[id := record], SequencesAfter(sequences, jobs[id], record);
    forall other | other in after ensures JobAt(after, issued, sequences', other) {
      assert JobAt(jobs, issued, sequences, other);
    }
  }

  lemma EditKeepsId(record: JobRecord, op: Op, tick: Tick)
    ensures Outcome(record, Prepare(record, op, tick)).id == record.id
  {
  }

  lemma ShrinkKeepsJobs(jobs: Jobs, issued: nat, sequences: nat, after: Jobs)
    requires JobsSound(jobs, issued, sequences)
    requires forall id :: id in after ==> id in jobs && after[id] == jobs[id]
    ensures JobsSound(after, issued, sequences)
  {
    SubmapSize(after, jobs);
    forall id | id in after ensures JobAt(after, issued, sequences, id) {
      assert JobAt(jobs, issued, sequences, id);
    }
    forall a, b | a in after && b in after ensures DistinctAt(after, a, b) {
      assert DistinctAt(jobs, a, b);
    }
  }

  lemma IssuedIsMonotone(m: nat, n: nat, id: string)
    requires m <= n && IssuedJob(m, id)
    ensures IssuedJob(n, id)
  {
  }

  lemma MoreIssuedKeepsJobs(jobs: Jobs, issued: nat, more: nat, sequences: nat)
    requires JobsSound(jobs, issued, sequences) && issued <= more <= U64_MAX
    ensures JobsSound(jobs, more, sequences)
  {
    forall id | id in jobs ensures JobAt(jobs, more, sequences, id) {
      assert JobAt(jobs, issued, sequences, id);
      IssuedIsMonotone(issued, more, id);
    }
  }

  /** The id of the next job: issued with the next number, and, until the numbers run out, never before. */
  ghost predicate NextId(issued: nat, jobs: Jobs, id: string) {
    IssuedJob(SaturatingAdd(issued, 1), id) && (issued < U64_MAX ==> id !in jobs && !IssuedJob(issued, id))
  }

  lemma NextJobIsFresh(jobs: Jobs, issued: nat, sequences: nat)
    requires JobsSound(jobs, issued, sequences)
    ensures NextId(issued, jobs, ToDecimal(SaturatingAdd(issued, 1)))
  {
    var next := ToDecimal(SaturatingAdd(issued, 1));
    assert IssuedJob(SaturatingAdd(issued, 1), next);
    if issued < U64_MAX {
      assert forall n :: 1 <= n <= issued ==> ToDecimal(n) != next by {
        assert Value(next) == issued + 1;
      }
      forall id | id in jobs ensures id != next {
        assert JobAt(jobs, issued, sequences, id);
      }
    }
  }

  lemma AdmissionKeepsJobs(jobs: Jobs, issued: nat, sequences: nat, id: string, kind: JobKind, startedAt: nat)
    requires JobsSound(jobs, issued, sequences) && |jobs| < MAX_ADMITTED_JOBS && IssuedJob(issued, id)
    ensures JobsSound(jobs[id := NewJob(id, kind, startedAt)], issued, sequences)
  {
    var after := jobs[id := NewJob(id, kind, startedAt)];
    SizeAfterUpdate(jobs, id, NewJob(id, kind, startedAt));
    forall other | other in after ensures JobAt(after, issued, sequences, other) {
      if other != id {
        assert JobAt(jobs, issued, sequences, other);
      }
    }
    forall a, b | a in after && b in after ensures DistinctAt(after, a, b) {
      if a != id && b != id {
        assert DistinctAt(jobs, a, b);
      }
    }
  }

  // ---------------------------------------------------------------------------------------------
  // Retention
  // ---------------------------------------------------------------------------------------------

  function Ended(jobs: Jobs): set<string> {
    set id | id in jobs && IsTerminal(jobs[id].status)
  }

  /** Everything about what eviction may remove: ended jobs only, and earlier ones before later ones. */
  ghost predicate KeptAt(jobs: Jobs, after: Jobs, kept: string, gone: string)
    requires kept in after && gone in jobs && gone !in after
  {
    && IsTerminal(jobs[gone].status) && jobs[gone].terminalSequence.Some?
    && (after[kept].terminalSequence.Some? ==> jobs[gone].terminalSequence.value < after[kept].terminalSequence.value)
  }

  ghost predicate UntouchedAt(jobs: Jobs, after: Jobs, id: string) {
    && (id in after ==> id in jobs && after[id] == jobs[id])
    && (id in jobs && !IsTerminal(jobs[id].status) ==> id in after)
  }

  ghost predicate EvictsOldest(jobs: Jobs, after: Jobs) {
    && (forall id {:trigger UntouchedAt(jobs, after, id)} :: UntouchedAt(jobs, after, id))
    && (forall kept, gone {:trigger KeptAt(jobs, after, kept, gone)} ::
          kept in after && gone in jobs && gone !in after ==> KeptAt(jobs, after, kept, gone))
  }

  ghost predicate OldestEnded(jobs: Jobs, id: string) {
    && id in jobs && jobs[id].terminalSequence.Some?
    && forall other :: other in jobs && jobs[other].terminalSequence.Some? && other != id ==>
         jobs[id].terminalSequence.value < jobs[other].terminalSequence.value
  }

  lemma EvictingOldestComposes(jobs: Jobs, after: Jobs, id: string)
    requires EvictsOldest(jobs, after) && OldestEnded(after, id) && IsTerminal(after[id].status)
    ensures EvictsOldest(jobs, after - {id})
  {
    var next := after - {id};
    forall other ensures UntouchedAt(jobs, next, other) {
      assert UntouchedAt(jobs, after, other);
    }
    assert UntouchedAt(jobs, after, id);
    forall kept, gone | kept in next && gone in jobs && gone !in next ensures KeptAt(jobs, next, kept, gone) {
      assert UntouchedAt(jobs, after, kept);
      assert gone != id ==> KeptAt(jobs, after, kept, gone);
    }
  }

  /** The job that ended first; sequence numbers are distinct, so the source's tie-break by id never decides. */
  method FindOldestEnded(jobs: Jobs) returns (oldest: Option<string>)
    requires DistinctSequences(jobs)
    ensures oldest.None? ==> forall id :: id in jobs ==> jobs[id].terminalSequence.None?
    ensures oldest.Some? ==> OldestEnded(jobs, oldest.value)
  {
    oldest := None;
    var rest := jobs.Keys;
    while rest != {}
      invariant rest <= jobs.Keys
      invariant oldest.None? ==> forall id :: id in jobs && id !in rest ==> jobs[id].terminalSequence.None?
      invariant oldest.Some? ==>
          oldest.value in jobs && oldest.value !in rest && jobs[oldest.value].terminalSequence.Some?
      invariant oldest.Some? ==>
                  forall id :: id in jobs && id !in rest && id != oldest.value && jobs[id].terminalSequence.Some? ==>
                    jobs[oldest.value].terminalSequence.value < jobs[id].terminalSequence.value
      decreases |rest|
    {
      var id :| id in rest;
      rest := rest - {id};
      if jobs[id].terminalSequence.Some? {
        assert oldest.Some? ==> DistinctAt(jobs, id, oldest.value);
        if oldest.None? || jobs[id].terminalSequence.value < jobs[oldest.value].terminalSequence.value {
          oldest := Some(id);
        }
      }
    }
  }

  lemma EvictedEarlier(jobs: Jobs, one: Jobs, two: Jobs, id: string)
    requires EvictsOldest(jobs, one) && EvictsOldest(jobs, two) && id in one && id !in two
    ensures |Ended(two)| < |Ended(one)|
  {
    assert UntouchedAt(jobs, one, id) && UntouchedAt(jobs, two, id);
    forall other | other in Ended(two) ensures other in Ended(one) {
      assert UntouchedAt(jobs, one, other) && UntouchedAt(jobs, two, other);
      assert KeptAt(jobs, two, other, id);
      assert other !in one ==> KeptAt(jobs, one, id, other);
    }
    SubsetSize(Ended(two), Ended(one) - {id});
  }

  /** Eviction could free a place: too many jobs have ended, and one of them is numbered. */
  ghost predicate CanEvict(jobs: Jobs) {
    |Ended(jobs)| >= MAX_RETAINED_TERMINAL_JOBS && exists id :: id in jobs && jobs[id].terminalSequence.Some?
  }

  lemma EndedAfterRemoval(jobs: Jobs, id: string)
    requires id in jobs && IsTerminal(jobs[id].status)
    ensures |Ended(jobs - {id})| == |Ended(jobs)| - 1
  {
    assert Ended(jobs - {id}) == Ended(jobs) - {id};
  }

  /**
   * What eviction has done so far: earlier ended jobs went before later ones, and it went on only while a hundred
   * had ended.
   */
  ghost predicate EvictedJobs(before: Jobs, after: Jobs) {
    && EvictsOldest(before, after) && after.Keys <= before.Keys
    && (after == before || (CanEvict(before) && |after| < |before| && |Ended(after)| >= MAX_RETAINED_TERMINAL_JOBS - 1))
  }

  lemma EvictionStep(before: Jobs, after: Jobs, issued: nat, sequences: nat, oldest: string)
    requires EvictedJobs(before, after) && JobsSound(after, issued, sequences)
    requires OldestEnded(after, oldest) && |Ended(after)| >= MAX_RETAINED_TERMINAL_JOBS
    ensures JobsSound(after - {oldest}, issued, sequences) && |after - {oldest}| == |after| - 1
    ensures EvictedJobs(before, after - {oldest})
  {
    assert JobAt(after, issued, sequences, oldest);
    ShrinkKeepsJobs(after, issued, sequences, after - {oldest});
    SizeAfterRemoval(after, oldest);
    EndedAfterRemoval(after, oldest);
    EvictingOldestComposes(before, after, oldest);
  }

  /** Eviction leaves a table full exactly when it was full and nothing could be evicted. */
  lemma EvictionMakesRoom(before: Jobs, after: Jobs)
    requires EvictedJobs(before, after) && !CanEvict(after) && |before| <= MAX_ADMITTED_JOBS
    ensures |after| >= MAX_ADMITTED_JOBS <==> !CanEvict(before) && |before| >= MAX_ADMITTED_JOBS
  {
  }

  /** While sequence numbers last, eviction ends with fewer than a hundred ended jobs. */
  lemma RetentionBound(jobs: Jobs, issued: nat, sequences: nat)
    requires JobsSound(jobs, issued, sequences) && !CanEvict(jobs) && sequences < U64_MAX
    ensures |Ended(jobs)| < MAX_RETAINED_TERMINAL_JOBS
  {
    if Ended(jobs) != {} {
      var id :| id in Ended(jobs);
      assert JobAt(jobs, issued, sequences, id);
    }
  }

  /** Ended jobs that got no sequence number, because the numbers had run out. */
  function Unnumbered(jobs: Jobs): set<string> {
    set id | id in Ended(jobs) && jobs[id].terminalSequence.None?
  }

  lemma UnnumberedStay(jobs: Jobs, after: Jobs, id: string)
    requires EvictsOldest(jobs, after) && id in Unnumbered(jobs) && after != map[]
    ensures id in Unnumbered(after)
  {
    var kept :| kept in after;
    assert id !in after ==> KeptAt(jobs, after, kept, id);
    assert UntouchedAt(jobs, after, id);
  }

  /** A finished eviction leaves 99 ended jobs, or all that have no number, if those are more. */
  lemma EvictionCount(jobs: Jobs, after: Jobs)
    requires EvictedJobs(jobs, after) && !CanEvict(after)
    ensures |Ended(after)|
            == if !CanEvict(jobs) then |Ended(jobs)|
               else if |Unnumbered(jobs)| >= MAX_RETAINED_TERMINAL_JOBS then |Unnumbered(jobs)|
               else MAX_RETAINED_TERMINAL_JOBS - 1
  {
    if CanEvict(jobs) {
      assert Ended(after) != {};
      forall id | id in Unnumbered(jobs) ensures id in Ended(after) {
        UnnumberedStay(jobs, after, id);
      }
      SubsetSize(Unnumbered(jobs), Ended(after));
      if |Ended(after)| >= MAX_RETAINED_TERMINAL_JOBS {
        forall id | id in Ended(after) ensures id in Unnumbered(jobs) {
          assert UntouchedAt(jobs, after, id);
        }
        assert Ended(after) == Unnumbered(jobs);
      }
    }
  }

  /** Which jobs a finished eviction leaves is determined by the order in which the jobs ended. */
  lemma EvictionIsDetermined(jobs: Jobs, one: Jobs, two: Jobs)
    requires EvictedJobs(jobs, one) && !CanEvict(one)
    requires EvictedJobs(jobs, two) && !CanEvict(two)
    ensures one == two
  {
    EvictionCount(jobs, one);
    EvictionCount(jobs, two);
    forall id ensures id in one <==> id in two {
      if id in one && id !in two {
        EvictedEarlier(jobs, one, two, id);
      } else if id in two && id !in one {
        EvictedEarlier(jobs, two, one, id);
      }
    }
    forall id | id in one ensures one[id] == two[id] {
      assert UntouchedAt(jobs, one, id) && UntouchedAt(jobs, two, id);
    }
  }

  lemma EndedAfterAdmission(jobs: Jobs, id: string, record: JobRecord)
    requires !IsTerminal(record.status)
    ensures |Ended(jobs[id := record])| <= |Ended(jobs)|
  {
    SubsetSize(Ended(jobs[id := record]), Ended(jobs));
  }

  // ---------------------------------------------------------------------------------------------
  // The catalog
  // ---------------------------------------------------------------------------------------------

  datatype Descriptor = Descriptor(jobId: string, revision: nat, kind: JobKind, status: JobStatus, terminal: bool)

  datatype Catalog = Catalog(revision: nat, jobs: seq<Descriptor>)

  function Describe(record: JobRecord): Descriptor {
    Descriptor(record.id, record.revision, record.kind, record.status, IsTerminal(record.status))
  }

  /** A line of the catalog shows its job as it is. */
  predicate Describes(line: Descriptor, jobs: Jobs) {
    && line.jobId in jobs && line.revision == jobs[line.jobId].revision && line.kind == jobs[line.jobId].kind
    && line.status == jobs[line.jobId].status && (line.terminal <==> IsTerminal(line.status))
  }

  function Ids(descriptors: seq<Descriptor>): seq<string> {
    seq(|descriptors|, i requires 0 <= i < |descriptors| => descriptors[i].jobId)
  }

  /**
   * A descriptor shows its job's status, unless a counter of that job is exhausted, and its kind as of the revision it
   * carries.
   */
  ghost predicate ShownAt(descriptors: seq<Descriptor>, jobs: Jobs, i: nat)
    requires i < |descriptors|
  {
    var d := descriptors[i];
    && d.jobId in jobs && d.terminal == IsTerminal(d.status) && d.revision <= jobs[d.jobId].revision
    && (Current(jobs[d.jobId]) ==> d.status == jobs[d.jobId].status)
    && (Current(jobs[d.jobId]) && d.revision == jobs[d.jobId].revision ==> d.kind == jobs[d.jobId].kind)
  }

  ghost predicate ListedAt(descriptors: seq<Descriptor>, jobs: Jobs, id: string) {
    id in Ids(descriptors) <==> id in jobs
  }

  /** The catalog lists exactly the jobs of the table, in ascending order of their ids. */
  ghost predicate Lists(descriptors: seq<Descriptor>, jobs: Jobs) {
    && Ascending(Ids(descriptors))
    && (forall id {:trigger ListedAt(descriptors, jobs, id)} :: ListedAt(descriptors, jobs, id))
    && forall i {:trigger ShownAt(descriptors, jobs, i)} :: 0 <= i < |descriptors| ==> ShownAt(descriptors, jobs, i)
  }

  /** An operation on one job that leaves its status, or exhausts its counters, leaves the catalog as true as it was. */
  lemma EditKeepsListing(descriptors: seq<Descriptor>, jobs: Jobs, id: string, record: JobRecord)
    requires Lists(descriptors, jobs) && id in jobs && jobs[id].revision <= record.revision
    requires Current(record) ==> Current(jobs[id]) && record.status == jobs[id].status
    requires Current(record) && record.revision == jobs[id].revision ==> record == jobs[id]
    ensures Lists(descriptors, jobs[id := record])
  {
    var after := jobs[id := record];
    forall other ensures ListedAt(descriptors, after, other) {
      assert ListedAt(descriptors, jobs, other);
    }
    forall i | 0 <= i < |descriptors| ensures ShownAt(descriptors, after, i) {
      assert ShownAt(descriptors, jobs, i);
    }
  }

  /** The same for any operation, in terms of what it made of the job. */
  lemma QuietEditKeepsListing(
      descriptors: seq<Descriptor>, jobs: Jobs, issued: nat, sequences: nat, id: string, op: Op, tick: Tick)
    requires JobsSound(jobs, issued, sequences) && Lists(descriptors, jobs) && id in jobs
    requires Current(Apply(jobs[id], op, tick)) ==> Apply(jobs[id], op, tick).status == jobs[id].status
    ensures Lists(descriptors, jobs[id := Apply(jobs[id], op, tick)])
  {
    assert JobAt(jobs, issued, sequences, id);
    EditNumbersOrKeeps(jobs[id], op, tick);
    EditKeepsListing(descriptors, jobs, id, Apply(jobs[id], op, tick));
  }

  /** A record that is current after an operation is unchanged or has a larger revision. */
  lemma EditNumbersOrKeeps(record: JobRecord, op: Op, tick: Tick)
    requires Lawful(record)
    ensures var after := Apply(record, op, tick);
      && after.revision >= record.revision
      && (Current(after) ==> Current(record) && (after == record || after.revision > record.revision))
  {
    StepNumbersSnapshot(record, op, tick);
    if !Perform(record, op, tick).ok {
      UnpublishedIsQuiet(record, op, tick);
    } else {
      PublishesIff(record, op, tick);
    }
  }

  /** `publish_catalog`, once the revision is known. */
  method ListJobs(jobs: Jobs, ghost issued: nat, ghost sequences: nat) returns (descriptors: seq<Descriptor>)
    requires JobsSound(jobs, issued, sequences)
    ensures Lists(descriptors, jobs)
    ensures forall i :: 0 <= i < |descriptors| ==> Describes(descriptors[i], jobs)
  {
    var ids := SortStrings(jobs.Keys);
    descriptors := seq(|ids|, i requires 0 <= i < |ids| && ids[i] in jobs => Describe(jobs[ids[i]]));
    forall i | 0 <= i < |ids| ensures descriptors[i].jobId == ids[i] && ids[i] in jobs {
      assert ids[i] in ids;
      assert JobAt(jobs, issued, sequences, ids[i]);
    }
    assert Ids(descriptors) == ids;
    forall i | 0 <= i < |descriptors| ensures ShownAt(descriptors, jobs, i) {
    }
  }

  /** There is only one such catalog: two lists of the same jobs name them in the same order. */
  lemma {:induction false} AscendingIsUnique(xs: seq<string>, ys: seq<string>)
    requires Ascending(xs) && Ascending(ys) && (forall x :: x in xs <==> x in ys)
    ensures xs == ys
  {
    assert xs != [] ==> xs[0] in xs;
    assert ys != [] ==> ys[0] in ys;
    if xs != [] {
      FirstsAgree(xs, ys);
      TailsAgree(xs, ys);
      AscendingIsUnique(xs[1..], ys[1..]);
      assert xs == [xs[0]] + xs[1..] && ys == [ys[0]] + ys[1..];
    }
  }

  lemma FirstsAgree(xs: seq<string>, ys: seq<string>)
    requires Ascending(xs) && Ascending(ys) && xs != [] && ys != [] && (forall x :: x in xs <==> x in ys)
    ensures xs[0] == ys[0]
  {
    assert xs[0] in xs && ys[0] in ys;
    var i :| 0 <= i < |ys| && ys[i] == xs[0];
    var j :| 0 <= j < |xs| && xs[j] == ys[0];
    CodePointLaws(xs[0], ys[0], xs[0]);
  }

  lemma TailsAgree(xs: seq<string>, ys: seq<string>)
    requires Ascending(xs) && Ascending(ys) && xs != [] && ys != [] && xs[0] == ys[0]
        && (forall x :: x in xs <==> x in ys)
    ensures forall x :: x in xs[1..] <==> x in ys[1..]
  {
    CodePointLaws(xs[0], xs[0], xs[0]);
    assert xs == [xs[0]] + xs[1..] && ys == [ys[0]] + ys[1..];
    assert xs[0] !in xs[1..] && ys[0] !in ys[1..];
    forall x ensures x in xs[1..] <==> x in ys[1..] {
      assert x in xs <==> x in ys;
    }
  }
}
