/**
 * The archive index sessions with their workers: every interleaving of the visitor of each session's listing, its
 * publications and its end with the three steps of `close`. Every lock section and every look at the cancellation
 * flag is one step; what the archive holds, when a publication is due, and who closes when, are the choice of steps.
 */
module IndexWorkers {
  import opened Wrappers
  import opened ArchiveTypes
  import opened ArchiveIndexing
  import opened IndexSessions

  /**
   * Where the worker of a session stands. `tally` is the count of its index, which it alone inserts into; `Leaving`
   * is the end of the visit, before the flag is looked at a last time, and `Finishing` after that.
   */
  datatype Worker =
    | Spawning
    | Visiting(tally: Tally)
    | Inserting(tally: Tally, entry: BrowserEntry)
    | Publishing(tally: Tally)
    | Leaving(result: Result<Statistics, string>)
    | Finishing(result: Result<Statistics, string>)
    | Ended

  datatype World = World(registry: State, workers: map<string, Worker>)

  /** What becomes of a worker: a thread, a thread for an archive listed on demand, or no thread. */
  datatype Spawned = Thread | OnDemand | NoThread(error: string)

  datatype Step =
    | Start(path: string, password: Option<string>)
    | Spawn(id: string, spawned: Spawned)
    | Visit(id: string, entry: BrowserEntry)
    | Insert(id: string, refusal: Option<string>, due: bool)
    | Publish(id: string)
    | Exhaust(id: string, failure: Option<string>)
    | Depart(id: string)
    | Finish(id: string)
    | Remove(id: string)
    | Flag(id: string)
    | Announce(id: string)

  function Init(): World {
    World(State(0, map[], {}, map[]), map[])
  }

  predicate Registered(w: World) {
    w.registry.sessions.Keys <= w.registry.traces.Keys
  }

  predicate Enabled(w: World, step: Step) {
    Registered(w) &&
    match step
    case Start(path, _) =>
      path != [] && |w.registry.sessions| < MAX_ACTIVE_ARCHIVE_SESSIONS && w.registry.issued < U64_MAX
    case Spawn(id, _) => id in w.workers && w.workers[id].Spawning?
    case Visit(id, _) => id in w.workers && w.workers[id].Visiting?
    case Insert(id, refusal, _) =>
      && id in w.workers && w.workers[id].Inserting?
      && (Tallied(w.workers[id].tally, w.workers[id].entry).entryCount > MAX_ARCHIVE_INDEX_ENTRIES ==> refusal.Some?)
    case Publish(id) => id in w.workers && w.workers[id].Publishing?
    case Exhaust(id, _) => id in w.workers && w.workers[id].Visiting?
    case Depart(id) => id in w.workers && w.workers[id].Leaving?
    case Finish(id) => id in w.workers && w.workers[id].Finishing?
    case Remove(id) => id in w.registry.sessions
    case Flag(id) => id in w.registry.traces && w.registry.traces[id].closing.Taken?
    case Announce(id) => id in w.registry.traces && w.registry.traces[id].closing.Told?
  }

  /** What a step does to the worker it concerns. */
  function Worked(w: World, step: Step): Worker
    requires Enabled(w, step) && !step.Start? && !step.Remove? && !step.Flag? && !step.Announce?
  {
    var worker := w.workers[step.id];
    match step
    case Spawn(_, Thread) => Visiting(NO_ENTRIES)
    case Spawn(_, OnDemand) => Finishing(Ok(Statistics(0, Some(0))))
    case Spawn(_, NoThread(error)) => Finishing(Err(error))
    case Visit(id, entry) =>
      if id in w.registry.cancelled then Leaving(Ok(StatisticsOf(worker.tally))) else Inserting(worker.tally, entry)
    case Insert(_, refusal, due) =>
      var tally := Tallied(worker.tally, worker.entry);
      if refusal.Some? then Leaving(Err(refusal.value)) else if due then Publishing(tally) else Visiting(tally)
    case Publish(_) => Visiting(worker.tally)
    case Exhaust(_, failure) => Leaving(if failure.Some? then Err(failure.value) else Ok(StatisticsOf(worker.tally)))
    case Depart(id) => if id in w.registry.cancelled then Ended else Finishing(worker.result)
    case _ => Ended
  }

  function Apply(w: World, step: Step): World
    requires Enabled(w, step)
  {
    var r := w.registry;
    match step
    case Start(path, password) =>
      World(Started(r, SessionRecord(path, FirstSnapshot(), password)), w.workers[SessionId(r.issued + 1) := Spawning])
    case Remove(id) => w.(registry := Removed(r, id))
    case Flag(id) => w.(registry := Flagged(r, id))
    case Announce(id) => w.(registry := Announced(r, id))
    case Publish(id) => World(Progressed(r, id, StatisticsOf(w.workers[id].tally)), w.workers[id := Worked(w, step)])
    case Finish(id) => World(Finished(r, id, w.workers[id].result), w.workers[id := Worked(w, step)])
    case _ => w.(workers := w.workers[step.id := Worked(w, step)])
  }

  predicate Runs(w: World, steps: seq<Step>)
    decreases |steps|
  {
    steps == [] || (Enabled(w, steps[0]) && Runs(Apply(w, steps[0]), steps[1..]))
  }

  function After(w: World, steps: seq<Step>): World
    requires Runs(w, steps)
    decreases |steps|
  {
    if steps == [] then w else After(Apply(w, steps[0]), steps[1..])
  }

  // ---------------------------------------------------------------------------------------------
  // The histories of sessions
  // ---------------------------------------------------------------------------------------------

  predicate IsSettled(status: IndexStatus) {
    status == Ready || status == Empty || status == Failed
  }

  /** What a snapshot shows goes with its status. */
  predicate Consistent(snapshot: Snapshot) {
    match snapshot.status
    case Ready =>
      && snapshot.finalEntryCount == Some(snapshot.discoveredEntries) && snapshot.discoveredEntries > 0
      && snapshot.finalTotalBytes == snapshot.discoveredBytes && snapshot.failure == None
    case Empty =>
      && snapshot.finalEntryCount == Some(0) && snapshot.discoveredEntries == 0
      && snapshot.finalTotalBytes == snapshot.discoveredBytes && snapshot.failure == None
    case Failed => snapshot.failure.Some? && NothingFinal(snapshot) && snapshot.discoveredEntries == 0
    case _ => snapshot.failure == None && NothingFinal(snapshot)
  }

  /** Indexing with counts that never fall, then at most one outcome, then at most one cancellation, and no more. */
  ghost predicate FollowsFrom(before: Snapshot, after: Snapshot) {
    && Consistent(before) && Consistent(after)
    && (before.status == Indexing || (IsSettled(before.status) && after.status == Cancelled))
    && (before.status == Indexing && after.status == Indexing ==> before.discoveredEntries <= after.discoveredEntries)
    && (after.status == Cancelled ==> before.discoveredEntries == after.discoveredEntries)
  }

  ghost predicate FollowsAt(history: seq<Snapshot>, i: nat)
    requires i + 1 < |history|
  {
    FollowsFrom(history[i], history[i + 1])
  }

  ghost predicate Orderly(history: seq<Snapshot>) {
    forall i {:trigger FollowsAt(history, i)} :: 0 <= i < |history| - 1 ==> FollowsAt(history, i)
  }

  lemma OrderlyGrows(history: seq<Snapshot>, snapshot: Snapshot)
    requires history != [] && Orderly(history) && FollowsFrom(Newest(history), snapshot)
    ensures Orderly(history + [snapshot])
  {
    var longer := history + [snapshot];
    forall i | 0 <= i < |longer| - 1 ensures FollowsAt(longer, i) {
      if i < |history| - 1 {
        assert FollowsAt(history, i);
      }
    }
  }

  lemma OutcomeIsLate(history: seq<Snapshot>, i: nat, j: nat)
    requires Orderly(history) && i < j < |history| && history[i].status != Indexing
    ensures j == i + 1 && IsSettled(history[i].status) && history[j].status == Cancelled
  {
    assert FollowsAt(history, i);
    assert j > i + 1 ==> FollowsAt(history, i + 1);
  }

  lemma {:induction false} CountsNeverFall(history: seq<Snapshot>, i: nat, j: nat)
    requires Orderly(history) && i <= j < |history| && history[j].status == Indexing
    ensures history[i].status == Indexing && history[i].discoveredEntries <= history[j].discoveredEntries
  {
    if i < j {
      assert FollowsAt(history, j - 1);
      CountsNeverFall(history, i, j - 1);
    }
  }

  // ---------------------------------------------------------------------------------------------
  // The invariant
  // ---------------------------------------------------------------------------------------------

  /** How much a worker at work has counted: never less than it has published. */
  function Counted(worker: Worker): Option<nat> {
    match worker
    case Spawning => Some(0)
    case Visiting(tally) => Some(tally.entryCount)
    case Inserting(tally, _) => Some(tally.entryCount)
    case Publishing(tally) => Some(tally.entryCount)
    case _ => None
  }

  ghost predicate Fits(worker: Worker, history: seq<Snapshot>)
    requires history != []
  {
    var newest := Newest(history);
    && (!worker.Ended? ==> newest.status == Indexing || newest.status == Cancelled)
    && (Counted(worker).Some? ==> Counted(worker).value <= U64_MAX)
    && (Counted(worker).Some? && newest.status == Indexing ==> newest.discoveredEntries <= Counted(worker).value)
    && Consistent(newest)
  }

  ghost predicate FitsAt(w: World, id: string)
    requires id in w.registry.traces
  {
    && id in w.workers && w.registry.traces[id].history != [] && Orderly(w.registry.traces[id].history)
    && Fits(w.workers[id], w.registry.traces[id].history)
    && (id in w.registry.sessions && w.workers[id].Ended? ==> IsSettled(Newest(w.registry.traces[id].history).status))
  }

  ghost predicate WorldSound(w: World) {
    && Sound(w.registry) && w.workers.Keys <= w.registry.traces.Keys
    && forall id {:trigger FitsAt(w, id)} :: id in w.registry.traces ==> FitsAt(w, id)
  }

  ghost predicate SameFitAt(w: World, t: World, id: string) {
    && (id in t.registry.traces ==>
        id in w.registry.traces && w.registry.traces[id].history == t.registry.traces[id].history)
    && (id in t.registry.sessions ==> id in w.registry.sessions)
    && (id in w.workers ==> id in t.workers && w.workers[id] == t.workers[id])
  }

  lemma OneWorkerChanges(w: World, t: World, id: string)
    requires WorldSound(w) && Sound(t.registry) && t.workers.Keys <= t.registry.traces.Keys
    requires id in t.registry.traces && FitsAt(t, id)
    requires forall other {:trigger SameFitAt(w, t, other)} :: other != id ==> SameFitAt(w, t, other)
    ensures WorldSound(t)
  {
    forall other | other in t.registry.traces ensures FitsAt(t, other) {
      if other != id {
        assert SameFitAt(w, t, other);
        assert FitsAt(w, other);
      }
    }
  }

  lemma StartKeepsWorld(w: World, path: string, password: Option<string>)
    requires WorldSound(w) && Enabled(w, Start(path, password))
    ensures WorldSound(Apply(w, Start(path, password)))
  {
    var t := Apply(w, Start(path, password));
    StartKeepsSound(w.registry, SessionRecord(path, FirstSnapshot(), password));
    var id := SessionId(w.registry.issued + 1);
    assert FitsAt(t, id);
    OneWorkerChanges(w, t, id);
  }

  predicate Quiet(step: Step) {
    step.Spawn? || step.Visit? || step.Insert? || step.Exhaust? || step.Depart?
  }

  /** The worker's own steps: the count of its index only grows. */
  lemma QuietStepKeepsWorld(w: World, step: Step)
    requires WorldSound(w) && Enabled(w, step) && Quiet(step)
    ensures WorldSound(Apply(w, step))
  {
    var t := Apply(w, step);
    assert FitsAt(w, step.id);
    assert SoundAt(w.registry, step.id);
    TallyGrows(w, step);
    assert FitsAt(t, step.id);
    OneWorkerChanges(w, t, step.id);
  }

  lemma TallyGrows(w: World, step: Step)
    requires Enabled(w, step) && Quiet(step) && w.workers[step.id] != Ended
    requires Counted(w.workers[step.id]).Some? ==> Counted(w.workers[step.id]).value <= U64_MAX
    ensures var before, after := Counted(w.workers[step.id]), Counted(Worked(w, step));
      before.Some? && after.Some? ==> before.value <= after.value
    ensures Counted(Worked(w, step)).Some? ==> Counted(w.workers[step.id]).Some?
  {
  }

  lemma PublishKeepsWorld(w: World, id: string)
    requires WorldSound(w) && Enabled(w, Publish(id))
    ensures WorldSound(Apply(w, Publish(id)))
  {
    var t := Apply(w, Publish(id));
    assert FitsAt(w, id);
    assert SoundAt(w.registry, id);
    if id in w.registry.sessions {
      var snapshot := ProgressSnapshot(w.registry.sessions[id].snapshot, StatisticsOf(w.workers[id].tally));
      PublishKeepsSound(w.registry, id, snapshot);
      OrderlyGrows(w.registry.traces[id].history, snapshot);
    }
    assert FitsAt(t, id);
    OneWorkerChanges(w, t, id);
  }

  lemma FinishKeepsWorld(w: World, id: string)
    requires WorldSound(w) && Enabled(w, Finish(id))
    ensures WorldSound(Apply(w, Finish(id)))
  {
    var t := Apply(w, Finish(id));
    assert FitsAt(w, id);
    assert SoundAt(w.registry, id);
    if id in w.registry.sessions {
      var snapshot := FinalSnapshot(w.registry.sessions[id].snapshot, w.workers[id].result);
      PublishKeepsSound(w.registry, id, snapshot);
      OrderlyGrows(w.registry.traces[id].history, snapshot);
    }
    assert FitsAt(t, id);
    OneWorkerChanges(w, t, id);
  }

  lemma CloseKeepsWorld(w: World, step: Step)
    requires WorldSound(w) && Enabled(w, step) && (step.Remove? || step.Flag? || step.Announce?)
    ensures WorldSound(Apply(w, step))
  {
    var t, id := Apply(w, step), step.id;
    assert FitsAt(w, id);
    assert SoundAt(w.registry, id);
    match step {
      case Remove(_) => RemoveKeepsSound(w.registry, id);
      case Flag(_) => FlagKeepsSound(w.registry, id);
      case Announce(_) =>
        AnnounceKeepsSound(w.registry, id);
        OrderlyGrows(w.registry.traces[id].history, CancelledSnapshot(w.registry.traces[id].closing.snapshot));
      case _ =>
    }
    assert FitsAt(t, id);
    OneWorkerChanges(w, t, id);
  }

  lemma StepKeepsWorld(w: World, step: Step)
    requires WorldSound(w) && Enabled(w, step)
    ensures WorldSound(Apply(w, step))
  {
    match step
    case Start(path, password) => StartKeepsWorld(w, path, password);
    case Publish(id) => PublishKeepsWorld(w, id);
    case Finish(id) => FinishKeepsWorld(w, id);
    case Remove(_) => CloseKeepsWorld(w, step);
    case Flag(_) => CloseKeepsWorld(w, step);
    case Announce(_) => CloseKeepsWorld(w, step);
    case _ => QuietStepKeepsWorld(w, step);
  }

  lemma {:induction false} RunKeepsWorld(w: World, steps: seq<Step>)
    requires WorldSound(w) && Runs(w, steps)
    ensures WorldSound(After(w, steps))
    decreases |steps|
  {
    if steps != [] {
      StepKeepsWorld(w, steps[0]);
      RunKeepsWorld(Apply(w, steps[0]), steps[1..]);
    }
  }

  /**
   * For every interleaving of workers and closing, and every session ever started: below saturation its snapshots
   * have strictly increasing revisions, counts never fall while it is indexing, there is at most one outcome, and
   * nothing follows a cancellation; and never more than four sessions are live.
   */
  lemma SessionFacts(steps: seq<Step>, id: string, i: nat, j: nat)
    requires Runs(Init(), steps) && id in After(Init(), steps).registry.traces
    requires i < j < |After(Init(), steps).registry.traces[id].history|
    ensures var history := After(Init(), steps).registry.traces[id].history;
      && (|history| <= U64_MAX ==> history[i].revision < history[j].revision)
      && (history[j].status == Indexing ==>
            history[i].status == Indexing && history[i].discoveredEntries <= history[j].discoveredEntries)
      && !(IsSettled(history[i].status) && IsSettled(history[j].status))
      && history[i].status != Cancelled
      && Consistent(history[i]) && Consistent(history[j])
      && (history[j].status == Cancelled ==> history[j].discoveredEntries == history[j - 1].discoveredEntries)
    ensures |After(Init(), steps).registry.sessions| <= MAX_ACTIVE_ARCHIVE_SESSIONS
  {
    RunKeepsWorld(Init(), steps);
    var w := After(Init(), steps);
    var history := w.registry.traces[id].history;
    assert FitsAt(w, id) && SoundAt(w.registry, id);
    HistoryRevision(history, i);
    HistoryRevision(history, j);
    if history[i].status != Indexing {
      OutcomeIsLate(history, i, j);
    }
    if history[j].status == Indexing {
      CountsNeverFall(history, i, j);
    }
    assert FollowsAt(history, i) && FollowsAt(history, j - 1);
  }

  /** In every run an open session shows an outcome exactly when its worker has ended. */
  lemma EndedIffSettled(steps: seq<Step>, id: string)
    requires Runs(Init(), steps) && id in After(Init(), steps).registry.sessions
    ensures var w := After(Init(), steps);
      id in w.workers && (w.workers[id].Ended? <==> IsSettled(w.registry.sessions[id].snapshot.status))
  {
    RunKeepsWorld(Init(), steps);
    var w := After(Init(), steps);
    assert FitsAt(w, id) && SoundAt(w.registry, id);
  }

  // ---------------------------------------------------------------------------------------------
  // What an outcome counts
  // ---------------------------------------------------------------------------------------------

  /** What one step adds to the index of a session. */
  function Gained(w: World, step: Step, id: string): seq<BrowserEntry>
    requires Enabled(w, step)
  {
    if step.Insert? && step.id == id then [w.workers[id].entry] else []
  }

  /** The entries a run inserts into the index of one session, in order. */
  function Offered(w: World, steps: seq<Step>, id: string): seq<BrowserEntry>
    requires Runs(w, steps)
    decreases |steps|
  {
    if steps == [] then []
    else
      Gained(w, steps[0], id) + Offered(Apply(w, steps[0]), steps[1..], id)
  }

  /** The worker has counted exactly these entries; what it has to report are their statistics. */
  ghost predicate HasCounted(worker: Worker, entries: seq<BrowserEntry>) {
    match worker
    case Spawning => entries == []
    case Visiting(tally) => tally == TalliedAll(NO_ENTRIES, entries)
    case Inserting(tally, _) => tally == TalliedAll(NO_ENTRIES, entries)
    case Publishing(tally) => tally == TalliedAll(NO_ENTRIES, entries)
    case Leaving(result) => result.Ok? ==> StatisticsOfAll(result.value, entries)
    case Finishing(result) => result.Ok? ==> StatisticsOfAll(result.value, entries)
    case Ended => true
  }

  /** An archive listed on demand reports no entries and no bytes before any directory is loaded. */
  ghost predicate StatisticsOfAll(statistics: Statistics, entries: seq<BrowserEntry>) {
    || statistics == StatisticsOf(TalliedAll(NO_ENTRIES, entries))
    || (entries == [] && statistics == Statistics(0, Some(0)))
  }

  ghost predicate OutcomeCounts(snapshot: Snapshot, entries: seq<BrowserEntry>) {
    snapshot.status == Ready || snapshot.status == Empty ==>
      StatisticsOfAll(Statistics(snapshot.discoveredEntries, snapshot.discoveredBytes), entries)
  }

  /** A worker that can still insert has not been reported as ready or empty. */
  ghost predicate Reported(worker: Worker, snapshot: Snapshot, entries: seq<BrowserEntry>) {
    && OutcomeCounts(snapshot, entries)
    && (snapshot.status == Ready || snapshot.status == Empty ==> worker.Ended?)
  }

  ghost predicate HistoryCounts(worker: Worker, history: seq<Snapshot>, entries: seq<BrowserEntry>) {
    forall i :: 0 <= i < |history| ==> Reported(worker, history[i], entries)
  }

  ghost predicate CountsAt(w: World, id: string, entries: seq<BrowserEntry>) {
    && (id in w.workers ==> HasCounted(w.workers[id], entries))
    && (id !in w.workers ==> entries == [])
    && (id in w.registry.traces ==>
          id in w.workers && HistoryCounts(w.workers[id], w.registry.traces[id].history, entries))
  }

  lemma WorkerCounts(w: World, step: Step, entries: seq<BrowserEntry>)
    requires Enabled(w, step) && !step.Start? && !step.Remove? && !step.Flag? && !step.Announce?
    requires HasCounted(w.workers[step.id], entries)
    ensures HasCounted(Worked(w, step), entries + Gained(w, step, step.id))
  {
    assert entries + [] == entries;
    if step.Insert? {
      assert (entries + [w.workers[step.id].entry])[..|entries|] == entries;
    }
  }

  lemma ReportedGrows(worker: Worker, history: seq<Snapshot>, snapshot: Snapshot, entries: seq<BrowserEntry>)
    requires HistoryCounts(worker, history, entries) && Reported(worker, snapshot, entries)
    ensures HistoryCounts(worker, history + [snapshot], entries)
  {
  }

  /** A worker at work has reported nothing yet, whatever it counts next. */
  lemma NothingReported(before: Worker, after: Worker, history: seq<Snapshot>, entries: seq<BrowserEntry>,
                        more: seq<BrowserEntry>)
    requires HistoryCounts(before, history, entries) && !before.Ended?
    ensures HistoryCounts(after, history, more)
  {
    forall i | 0 <= i < |history| ensures Reported(after, history[i], more) {
      assert Reported(before, history[i], entries);
    }
  }

  lemma StepCounts(w: World, step: Step, id: string, entries: seq<BrowserEntry>)
    requires WorldSound(w) && Enabled(w, step) && CountsAt(w, id, entries)
    ensures CountsAt(Apply(w, step), id, entries + Gained(w, step, id))
  {
    assert entries + [] == entries;
    if step.Start? {
      NewIdIsFresh(w.registry);
    } else if step.id == id {
      OwnStepCounts(w, step, entries);
    }
  }

  lemma OwnStepCounts(w: World, step: Step, entries: seq<BrowserEntry>)
    requires WorldSound(w) && Enabled(w, step) && !step.Start? && CountsAt(w, step.id, entries)
    ensures CountsAt(Apply(w, step), step.id, entries + Gained(w, step, step.id))
  {
    var id, t := step.id, Apply(w, step);
    assert entries + [] == entries;
    assert id in w.registry.traces && FitsAt(w, id) && SoundAt(w.registry, id);
    var history := w.registry.traces[id].history;
    if step.Announce? {
      ReportedGrows(w.workers[id], history, CancelledSnapshot(w.registry.traces[id].closing.snapshot), entries);
    } else if !step.Remove? && !step.Flag? {
      WorkerCounts(w, step, entries);
      NothingReported(w.workers[id], t.workers[id], history, entries, entries + Gained(w, step, id));
      if step.Publish? && id in w.registry.sessions {
        var last := w.registry.sessions[id].snapshot;
        ReportedGrows(t.workers[id], history, ProgressSnapshot(last, StatisticsOf(w.workers[id].tally)), entries);
      }
      if step.Finish? && id in w.registry.sessions {
        ReportedGrows(t.workers[id], history, FinalSnapshot(w.registry.sessions[id].snapshot, w.workers[id].result),
                      entries);
      }
    }
  }

  lemma AppendAssociates(a: seq<BrowserEntry>, b: seq<BrowserEntry>, c: seq<BrowserEntry>)
    ensures a + (b + c) == a + b + c
  {
  }

  lemma {:induction false} RunCounts(w: World, steps: seq<Step>, id: string, entries: seq<BrowserEntry>)
    requires WorldSound(w) && Runs(w, steps) && CountsAt(w, id, entries)
    ensures CountsAt(After(w, steps), id, entries + Offered(w, steps, id))
    decreases |steps|
  {
    if steps == [] {
      assert entries + [] == entries;
    } else {
      var more := Gained(w, steps[0], id);
      StepCounts(w, steps[0], id, entries);
      StepKeepsWorld(w, steps[0]);
      var t, rest := Apply(w, steps[0]), steps[1..];
      RunCounts(t, rest, id, entries + more);
      AppendAssociates(entries, more, Offered(t, rest, id));
    }
  }

  /** In every run a session that ends ready or empty reports exactly the entries its worker inserted. */
  lemma OutcomeIsTrue(steps: seq<Step>, id: string, i: nat)
    requires Runs(Init(), steps) && id in After(Init(), steps).registry.traces
    requires i < |After(Init(), steps).registry.traces[id].history|
    ensures OutcomeCounts(After(Init(), steps).registry.traces[id].history[i], Offered(Init(), steps, id))
  {
    RunCounts(Init(), steps, id, []);
    assert [] + Offered(Init(), steps, id) == Offered(Init(), steps, id);
  }

  // ---------------------------------------------------------------------------------------------
  // Why an outcome is what it is
  // ---------------------------------------------------------------------------------------------

  /** What a step decides about the outcome of a session, if it is the one that ends the worker's visit. */
  datatype Verdict = Undecided | Succeeds | Fails(error: string)

  function VerdictOf(failure: Option<string>): Verdict {
    if failure.Some? then Fails(failure.value) else Succeeds
  }

  function Decides(w: World, step: Step, id: string): Verdict
    requires Enabled(w, step)
  {
    match step
    case Spawn(spawned, OnDemand) => if spawned == id then Succeeds else Undecided
    case Spawn(spawned, NoThread(error)) => if spawned == id then Fails(error) else Undecided
    case Visit(visited, _) => if visited == id && id in w.registry.cancelled then Succeeds else Undecided
    case Insert(inserted, refusal, _) => if inserted == id && refusal.Some? then Fails(refusal.value) else Undecided
    case Exhaust(exhausted, failure) => if exhausted == id then VerdictOf(failure) else Undecided
    case _ => Undecided
  }

  /** The last verdict of a run, after an earlier one. */
  function Verdicts(w: World, steps: seq<Step>, id: string, earlier: Verdict): Verdict
    requires Runs(w, steps)
    decreases |steps|
  {
    if steps == [] then earlier
    else
      var now := Decides(w, steps[0], id);
      Verdicts(Apply(w, steps[0]), steps[1..], id, if now.Undecided? then earlier else now)
  }

  ghost predicate HasDecided(worker: Worker, verdict: Verdict) {
    match worker
    case Leaving(result) => verdict == if result.Ok? then Succeeds else Fails(result.error)
    case Finishing(result) => verdict == if result.Ok? then Succeeds else Fails(result.error)
    case Ended => !verdict.Undecided?
    case _ => verdict.Undecided?
  }

  /** An outcome is ready or empty after a success, and failed with the error after a failure. */
  ghost predicate OutcomeMatches(snapshot: Snapshot, verdict: Verdict) {
    && (snapshot.status == Ready || snapshot.status == Empty ==> verdict.Succeeds?)
    && (snapshot.status == Failed ==> verdict.Fails? && snapshot.failure == Some(verdict.error))
  }

  ghost predicate HistoryMatches(worker: Worker, history: seq<Snapshot>, verdict: Verdict) {
    forall i :: 0 <= i < |history| ==>
      OutcomeMatches(history[i], verdict) && (IsSettled(history[i].status) ==> worker.Ended?)
  }

  ghost predicate DecidedAt(w: World, id: string, verdict: Verdict) {
    && (id in w.workers ==> HasDecided(w.workers[id], verdict))
    && (id !in w.workers ==> verdict.Undecided?)
    && (id in w.registry.traces ==>
          id in w.workers && HistoryMatches(w.workers[id], w.registry.traces[id].history, verdict))
  }

  lemma WorkerDecides(w: World, step: Step, verdict: Verdict)
    requires Enabled(w, step) && !step.Start? && !step.Remove? && !step.Flag? && !step.Announce?
    requires HasDecided(w.workers[step.id], verdict)
    ensures var now := Decides(w, step, step.id);
      && HasDecided(Worked(w, step), if now.Undecided? then verdict else now)
      && (!now.Undecided? ==> !w.workers[step.id].Ended?)
  {
  }

  lemma MatchesGrow(worker: Worker, history: seq<Snapshot>, snapshot: Snapshot, verdict: Verdict)
    requires HistoryMatches(worker, history, verdict) && OutcomeMatches(snapshot, verdict)
    requires IsSettled(snapshot.status) ==> worker.Ended?
    ensures HistoryMatches(worker, history + [snapshot], verdict)
  {
  }

  lemma NothingMatched(before: Worker, after: Worker, history: seq<Snapshot>, earlier: Verdict, verdict: Verdict)
    requires HistoryMatches(before, history, earlier) && !before.Ended?
    ensures HistoryMatches(after, history, verdict)
  {
    forall i | 0 <= i < |history| ensures !IsSettled(history[i].status) {
      assert OutcomeMatches(history[i], earlier);
    }
  }

  lemma OwnStepDecides(w: World, step: Step, verdict: Verdict)
    requires WorldSound(w) && Enabled(w, step) && !step.Start? && DecidedAt(w, step.id, verdict)
    ensures var now := Decides(w, step, step.id);
      DecidedAt(Apply(w, step), step.id, if now.Undecided? then verdict else now)
  {
    var id, t, now := step.id, Apply(w, step), Decides(w, step, step.id);
    assert id in w.registry.traces && FitsAt(w, id) && SoundAt(w.registry, id);
    var history := w.registry.traces[id].history;
    if step.Announce? {
      MatchesGrow(w.workers[id], history, CancelledSnapshot(w.registry.traces[id].closing.snapshot), verdict);
    } else if !step.Remove? && !step.Flag? {
      WorkerDecides(w, step, verdict);
      var after := if now.Undecided? then verdict else now;
      NothingMatched(w.workers[id], t.workers[id], history, verdict, after);
      if step.Publish? && id in w.registry.sessions {
        var last := w.registry.sessions[id].snapshot;
        MatchesGrow(t.workers[id], history, ProgressSnapshot(last, StatisticsOf(w.workers[id].tally)), after);
      }
      if step.Finish? && id in w.registry.sessions {
        MatchesGrow(t.workers[id], history, FinalSnapshot(w.registry.sessions[id].snapshot, w.workers[id].result),
                    after);
      }
    }
  }

  lemma StepDecides(w: World, step: Step, id: string, verdict: Verdict)
    requires WorldSound(w) && Enabled(w, step) && DecidedAt(w, id, verdict)
    ensures var now := Decides(w, step, id);
      DecidedAt(Apply(w, step), id, if now.Undecided? then verdict else now)
  {
    if step.Start? {
      NewIdIsFresh(w.registry);
    } else if step.id == id {
      OwnStepDecides(w, step, verdict);
    }
  }

  lemma {:induction false} RunDecides(w: World, steps: seq<Step>, id: string, verdict: Verdict)
    requires WorldSound(w) && Runs(w, steps) && DecidedAt(w, id, verdict)
    ensures DecidedAt(After(w, steps), id, Verdicts(w, steps, id, verdict))
    decreases |steps|
  {
    if steps != [] {
      var now := Decides(w, steps[0], id);
      StepDecides(w, steps[0], id, verdict);
      StepKeepsWorld(w, steps[0]);
      RunDecides(Apply(w, steps[0]), steps[1..], id, if now.Undecided? then verdict else now);
    }
  }

  /**
   * In every run the outcome a session shows is that of the step that ended its worker's visit: a success when the
   * listing was exhausted without a failure, and otherwise the refusal or failure itself.
   */
  lemma OutcomeHasCause(steps: seq<Step>, id: string, i: nat)
    requires Runs(Init(), steps) && id in After(Init(), steps).registry.traces
    requires i < |After(Init(), steps).registry.traces[id].history|
    ensures OutcomeMatches(After(Init(), steps).registry.traces[id].history[i],
                           Verdicts(Init(), steps, id, Undecided))
  {
    RunDecides(Init(), steps, id, Undecided);
  }

  // ---------------------------------------------------------------------------------------------
  // After a cancellation
  // ---------------------------------------------------------------------------------------------

  /** From any state in which a worker has been told to stop, it inserts at most the entry it holds. */
  lemma {:induction false} CancelledInsertsNoMore(w: World, steps: seq<Step>, id: string)
    requires WorldSound(w) && Runs(w, steps) && id in w.registry.cancelled && id in w.workers
    ensures |Offered(w, steps, id)| <= if w.workers[id].Inserting? then 1 else 0
    decreases |steps|
  {
    if steps != [] {
      StepKeepsWorld(w, steps[0]);
      if steps[0].Start? {
        NewIdIsFresh(w.registry);
      }
      CancelledInsertsNoMore(Apply(w, steps[0]), steps[1..], id);
    }
  }
}
