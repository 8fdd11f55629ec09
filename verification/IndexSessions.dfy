/**
 * The archive index sessions: `start`, `publish_progress`, `finish` and `close` of `ArchiveIndexRegistry`. Each
 * method is one critical section; `close` takes three, so removal, the cancellation flag and the last announcement
 * are separate methods. What a session's history looks like also depends on its worker, which `IndexWorkers` adds.
 */
module IndexSessions {
  import opened Wrappers
  import opened Decimal
  import opened ArchiveIndexing

  const MAX_ACTIVE_ARCHIVE_SESSIONS := 4

  datatype IndexStatus = Indexing | Ready | Empty | Failed | Cancelled

  datatype Snapshot = Snapshot(
    revision: nat, status: IndexStatus, discoveredEntries: nat, discoveredBytes: Option<nat>,
    finalEntryCount: Option<nat>, finalTotalBytes: Option<nat>, failure: Option<string>)

  datatype SessionRecord = SessionRecord(archivePath: string, snapshot: Snapshot, password: Option<string>)

  datatype StartError = EmptyPath | PathNotFound | TooManySessions | SessionIdsExhausted

  function NextRevision(revision: nat): nat {
    SaturatingAdd(revision, 1)
  }

  function SessionId(n: nat): string {
    "archive-" + ToDecimal(n)
  }

  lemma SessionIdInjective(m: nat, n: nat)
    requires SessionId(m) == SessionId(n)
    ensures m == n
  {
    assert SessionId(m)[8..] == ToDecimal(m) && SessionId(n)[8..] == ToDecimal(n);
  }

  function ProgressSnapshot(last: Snapshot, statistics: Statistics): Snapshot {
    Snapshot(NextRevision(last.revision), Indexing, statistics.entryCount, statistics.totalBytes, None, None, None)
  }

  function FinalSnapshot(last: Snapshot, result: Result<Statistics, string>): Snapshot {
    match result
    case Ok(statistics) =>
      Snapshot(NextRevision(last.revision), if statistics.entryCount == 0 then Empty else Ready, statistics.entryCount,
               statistics.totalBytes, Some(statistics.entryCount), statistics.totalBytes, None)
    case Err(error) => Snapshot(NextRevision(last.revision), Failed, 0, None, None, None, Some(error))
  }

  function FirstSnapshot(): Snapshot {
    Snapshot(1, Indexing, 0, None, None, None, None)
  }

  function CancelledSnapshot(last: Snapshot): Snapshot {
    Snapshot(NextRevision(last.revision), Cancelled, last.discoveredEntries, last.discoveredBytes, None, None, None)
  }

  // What a snapshot says, by what it is made from.

  /** While indexing: the counts so far, and nothing final. */
  predicate ReportsProgress(snapshot: Snapshot, statistics: Statistics) {
    && snapshot.status == Indexing && snapshot.discoveredEntries == statistics.entryCount
    && snapshot.discoveredBytes == statistics.totalBytes && NothingFinal(snapshot) && snapshot.failure == None
  }

  predicate NothingFinal(snapshot: Snapshot) {
    snapshot.finalEntryCount == None && snapshot.finalTotalBytes == None
  }

  /** The outcome: failed with the error, or empty or ready by the final count, which is also the discovered one. */
  predicate ReportsOutcome(snapshot: Snapshot, result: Result<Statistics, string>) {
    && (snapshot.status == Failed <==> result.Err?)
    && (snapshot.status == Empty <==> result.Ok? && result.value.entryCount == 0)
    && (snapshot.status == Ready <==> result.Ok? && result.value.entryCount > 0)
    && (result.Err? ==>
          && snapshot.failure == Some(result.error) && NothingFinal(snapshot)
          && snapshot.discoveredEntries == 0 && snapshot.discoveredBytes == None)
    && (result.Ok? ==>
          && snapshot.failure == None
          && snapshot.discoveredEntries == result.value.entryCount
          && snapshot.discoveredBytes == result.value.totalBytes
          && snapshot.finalEntryCount == Some(result.value.entryCount)
          && snapshot.finalTotalBytes == result.value.totalBytes)
  }

  /** A cancellation keeps the counts it found, and reports nothing final. */
  predicate ReportsCancellation(snapshot: Snapshot, last: Snapshot) {
    && snapshot.status == Cancelled && snapshot.discoveredEntries == last.discoveredEntries
    && snapshot.discoveredBytes == last.discoveredBytes && NothingFinal(snapshot) && snapshot.failure == None
  }

  // ---------------------------------------------------------------------------------------------
  // The histories the registry alone vouches for
  // ---------------------------------------------------------------------------------------------

  function Newest(history: seq<Snapshot>): Snapshot
    requires history != []
  {
    history[|history| - 1]
  }

  ghost predicate NumberedAt(history: seq<Snapshot>, i: nat)
    requires i + 1 < |history|
  {
    history[i + 1].revision == NextRevision(history[i].revision) && history[i].status != Cancelled
  }

  /** Snapshots are numbered in order, and nothing follows a cancellation. */
  ghost predicate Numbered(history: seq<Snapshot>) {
    && history != [] && history[0] == FirstSnapshot()
    && forall i {:trigger NumberedAt(history, i)} :: 0 <= i < |history| - 1 ==> NumberedAt(history, i)
  }

  lemma {:induction false} HistoryRevision(history: seq<Snapshot>, i: nat)
    requires Numbered(history) && i < |history|
    ensures history[i].revision == if i + 1 > U64_MAX then U64_MAX else i + 1
  {
    if i > 0 {
      HistoryRevision(history, i - 1);
      assert NumberedAt(history, i - 1);
    }
  }

  lemma NumberedGrows(history: seq<Snapshot>, snapshot: Snapshot)
    requires Numbered(history) && Newest(history).status != Cancelled
    requires snapshot.revision == NextRevision(Newest(history).revision)
    ensures Numbered(history + [snapshot])
  {
    var longer := history + [snapshot];
    forall i | 0 <= i < |longer| - 1 ensures NumberedAt(longer, i) {
      if i < |history| - 1 {
        assert NumberedAt(history, i);
      }
    }
  }

  // ---------------------------------------------------------------------------------------------
  // The state of all sessions
  // ---------------------------------------------------------------------------------------------

  /** How far the closing of a session has come, with the snapshot its `close` read. */
  datatype Closing = Open | Taken(snapshot: Snapshot) | Told(snapshot: Snapshot) | Closed

  /** All that the watch channel of a session ever carried. */
  datatype Trace = Trace(history: seq<Snapshot>, closing: Closing)

  datatype State = State(issued: nat, sessions: map<string, SessionRecord>, cancelled: set<string>,
      traces: map<string, Trace>)

  ghost predicate IssuedId(issued: nat, id: string) {
    exists n :: 1 <= n <= issued && id == SessionId(n)
  }

  ghost predicate ClosingSound(trace: Trace, told: bool)
    requires trace.history != []
  {
    match trace.closing
    case Open => !told && Newest(trace.history).status != Cancelled
    case Taken(snapshot) => !told && snapshot == Newest(trace.history) && snapshot.status != Cancelled
    case Told(snapshot) => told && snapshot == Newest(trace.history) && snapshot.status != Cancelled
    case Closed => told && Newest(trace.history).status == Cancelled
  }

  ghost predicate SoundAt(s: State, id: string)
    requires id in s.traces
  {
    && IssuedId(s.issued, id) && Numbered(s.traces[id].history) && ClosingSound(s.traces[id], id in s.cancelled)
    && (id in s.sessions <==> s.traces[id].closing.Open?)
    && (id in s.sessions ==> s.sessions[id].snapshot == Newest(s.traces[id].history))
  }

  /** Every session that exists or existed was issued its own number, and at most four exist. */
  ghost predicate Sound(s: State) {
    && |s.sessions| <= MAX_ACTIVE_ARCHIVE_SESSIONS
    && s.sessions.Keys <= s.traces.Keys && s.cancelled <= s.traces.Keys
    && forall id {:trigger SoundAt(s, id)} :: id in s.traces ==> SoundAt(s, id)
  }

  lemma NewIdIsFresh(s: State)
    requires Sound(s)
    ensures SessionId(s.issued + 1) !in s.traces
  {
    var id := SessionId(s.issued + 1);
    if id in s.traces {
      assert SoundAt(s, id);
      var m :| 1 <= m <= s.issued && id == SessionId(m);
      SessionIdInjective(m, s.issued + 1);
    }
  }

  lemma IssuedIsMonotone(m: nat, n: nat, id: string)
    requires m <= n && IssuedId(m, id)
    ensures IssuedId(n, id)
  {
  }

  ghost predicate SameAt(s: State, t: State, id: string) {
    && (id in t.traces ==> id in s.traces && s.traces[id] == t.traces[id])
    && (id in t.sessions <==> id in s.sessions) && (id in t.sessions ==> s.sessions[id] == t.sessions[id])
    && (id in t.cancelled <==> id in s.cancelled)
  }

  /** A step that touches one session keeps the state sound if that session stays sound. */
  lemma OneSessionChanges(s: State, t: State, id: string)
    requires Sound(s) && s.issued <= t.issued
    requires |t.sessions| <= MAX_ACTIVE_ARCHIVE_SESSIONS && t.sessions.Keys <= t.traces.Keys
        && t.cancelled <= t.traces.Keys
    requires id in t.traces && SoundAt(t, id)
    requires forall other {:trigger SameAt(s, t, other)} :: other != id ==> SameAt(s, t, other)
    ensures Sound(t)
  {
    forall other | other in t.traces ensures SoundAt(t, other) {
      if other != id {
        assert SameAt(s, t, other);
        assert SoundAt(s, other);
        IssuedIsMonotone(s.issued, t.issued, other);
      }
    }
  }

  // The critical sections, as functions of the state.

  function Started(s: State, record: SessionRecord): State {
    var id := SessionId(s.issued + 1);
    s.(issued := s.issued + 1, sessions := s.sessions[id := record],
        traces := s.traces[id := Trace([record.snapshot], Open)])
  }

  function Published(s: State, id: string, snapshot: Snapshot): State
    requires id in s.sessions && id in s.traces
  {
    s.(sessions := s.sessions[id := s.sessions[id].(snapshot := snapshot)],
       traces := s.traces[id := s.traces[id].(history := s.traces[id].history + [snapshot])])
  }

  /** A live session gets the next snapshot; a closed one is left alone. */
  function Progressed(s: State, id: string, statistics: Statistics): State
    requires s.sessions.Keys <= s.traces.Keys
  {
    if id in s.sessions then Published(s, id, ProgressSnapshot(s.sessions[id].snapshot, statistics)) else s
  }

  function Finished(s: State, id: string, result: Result<Statistics, string>): State
    requires s.sessions.Keys <= s.traces.Keys
  {
    if id in s.sessions then Published(s, id, FinalSnapshot(s.sessions[id].snapshot, result)) else s
  }

  function Removed(s: State, id: string): State
    requires id in s.sessions && id in s.traces
  {
    s.(sessions := s.sessions - {id},
        traces := s.traces[id := s.traces[id].(closing := Taken(s.sessions[id].snapshot))])
  }

  function Flagged(s: State, id: string): State
    requires id in s.traces && s.traces[id].closing.Taken?
  {
    s.(cancelled := s.cancelled + {id},
        traces := s.traces[id := s.traces[id].(closing := Told(s.traces[id].closing.snapshot))])
  }

  function Announced(s: State, id: string): State
    requires id in s.traces && s.traces[id].closing.Told?
  {
    var trace := s.traces[id];
    s.(traces := s.traces[id := Trace(trace.history + [CancelledSnapshot(trace.closing.snapshot)], Closed)])
  }

  lemma StartKeepsSound(s: State, record: SessionRecord)
    requires Sound(s) && |s.sessions| < MAX_ACTIVE_ARCHIVE_SESSIONS && record.snapshot == FirstSnapshot()
    ensures SessionId(s.issued + 1) !in s.traces && Sound(Started(s, record))
  {
    var id, t := SessionId(s.issued + 1), Started(s, record);
    NewIdIsFresh(s);
    SizeAfterUpdate(s.sessions, id, record);
    assert IssuedId(t.issued, id);
    assert SoundAt(t, id);
    OneSessionChanges(s, t, id);
  }

  lemma PublishKeepsSound(s: State, id: string, snapshot: Snapshot)
    requires Sound(s) && id in s.sessions && id in s.traces
    requires snapshot.revision == NextRevision(s.sessions[id].snapshot.revision) && snapshot.status != Cancelled
    ensures Sound(Published(s, id, snapshot))
  {
    var t := Published(s, id, snapshot);
    assert SoundAt(s, id);
    NumberedGrows(s.traces[id].history, snapshot);
    SizeAfterUpdate(s.sessions, id, t.sessions[id]);
    assert SoundAt(t, id);
    OneSessionChanges(s, t, id);
  }

  lemma RemoveKeepsSound(s: State, id: string)
    requires Sound(s) && id in s.sessions && id in s.traces
    ensures Sound(Removed(s, id))
  {
    assert SoundAt(s, id);
    SizeAfterRemoval(s.sessions, id);
    assert SoundAt(Removed(s, id), id);
    OneSessionChanges(s, Removed(s, id), id);
  }

  lemma FlagKeepsSound(s: State, id: string)
    requires Sound(s) && id in s.traces && s.traces[id].closing.Taken?
    ensures Sound(Flagged(s, id))
  {
    assert SoundAt(s, id);
    assert SoundAt(Flagged(s, id), id);
    OneSessionChanges(s, Flagged(s, id), id);
  }

  lemma AnnounceKeepsSound(s: State, id: string)
    requires Sound(s) && id in s.traces && s.traces[id].closing.Told?
    ensures Sound(Announced(s, id))
  {
    assert SoundAt(s, id);
    NumberedGrows(s.traces[id].history, CancelledSnapshot(s.traces[id].closing.snapshot));
    assert SoundAt(Announced(s, id), id);
    OneSessionChanges(s, Announced(s, id), id);
  }

  // ---------------------------------------------------------------------------------------------
  // The registry
  // ---------------------------------------------------------------------------------------------

  class ArchiveIndexRegistry {
    var nextSessionId: nat
    var sessions: map<string, SessionRecord>
    var cancelled: set<string>
    ghost var traces: map<string, Trace>

    ghost function View(): State
      reads this
    {
      State(nextSessionId, sessions, cancelled, traces)
    }

    ghost predicate Valid()
      reads this
    {
      Sound(View())
    }

    constructor ()
      ensures Valid() && View() == State(0, map[], {}, map[])
    {
      nextSessionId := 0;
      sessions := map[];
      cancelled := {};
      traces := map[];
    }

    /** `start`, up to the spawning of the worker; `pathExists` says whether the archive was found. */
    method Start(trimmedPath: string, pathExists: bool, password: Option<string>)
      returns (result: Result<string, StartError>)
      requires Valid()
      modifies this
      ensures Valid()
      ensures result == Err(EmptyPath) <==> trimmedPath == []
      ensures result == Err(PathNotFound) <==> trimmedPath != [] && !pathExists
      ensures result == Err(TooManySessions)
          <==> trimmedPath != [] && pathExists && old(|sessions|) >= MAX_ACTIVE_ARCHIVE_SESSIONS
      ensures result == Err(SessionIdsExhausted)
          <==> trimmedPath != [] && pathExists && old(|sessions|) < MAX_ACTIVE_ARCHIVE_SESSIONS
                                                      && old(nextSessionId) >= U64_MAX
      ensures result.Err? ==> View() == old(View())
      ensures result.Ok? ==>
                && result.value == "archive-" + ToDecimal(old(nextSessionId) + 1) && result.value !in old(traces)
                && result.value in sessions && sessions[result.value].archivePath == trimmedPath
                && sessions[result.value].password == password && sessions[result.value].snapshot.revision == 1
                && ReportsProgress(sessions[result.value].snapshot, Statistics(0, None))
                && View() == Started(old(View()), SessionRecord(trimmedPath, FirstSnapshot(), password))
    {
      if trimmedPath == [] {
        return Err(EmptyPath);
      }
      if !pathExists {
        return Err(PathNotFound);
      }
      if |sessions| >= MAX_ACTIVE_ARCHIVE_SESSIONS {
        return Err(TooManySessions);
      }
      if nextSessionId >= U64_MAX {
        return Err(SessionIdsExhausted);
      }
      result := AddSession(SessionRecord(trimmedPath, FirstSnapshot(), password));
    }

    method AddSession(record: SessionRecord) returns (result: Result<string, StartError>)
      requires Valid() && |sessions| < MAX_ACTIVE_ARCHIVE_SESSIONS && record.snapshot == FirstSnapshot()
      modifies this
      ensures Valid() && result == Ok(SessionId(old(nextSessionId) + 1)) && result.value !in old(traces)
      ensures View() == Started(old(View()), record)
    {
      StartKeepsSound(View(), record);
      nextSessionId := nextSessionId + 1;
      var id := SessionId(nextSessionId);
      sessions := sessions[id := record];
      traces := traces[id := Trace([record.snapshot], Open)];
      return Ok(id);
    }

    /** `publish_progress`: nothing happens once the session is closed. */
    method PublishProgress(id: string, statistics: Statistics)
      requires Valid()
      modifies this`sessions, this`traces
      ensures Valid() && View() == Progressed(old(View()), id, statistics)
      ensures id in old(sessions) ==> id in sessions && ReportsProgress(sessions[id].snapshot, statistics)
    {
      if id !in sessions {
        return;
      }
      assert SoundAt(View(), id);
      if id in cancelled {
        return;
      }
      var snapshot := ProgressSnapshot(sessions[id].snapshot, statistics);
      PublishKeepsSound(View(), id, snapshot);
      sessions := sessions[id := sessions[id].(snapshot := snapshot)];
      traces := traces[id := traces[id].(history := traces[id].history + [snapshot])];
    }

    /** `finish`. */
    method Finish(id: string, result: Result<Statistics, string>)
      requires Valid()
      modifies this`sessions, this`traces
      ensures Valid() && View() == Finished(old(View()), id, result)
      ensures id in old(sessions) ==> id in sessions && ReportsOutcome(sessions[id].snapshot, result)
    {
      if id !in sessions {
        return;
      }
      assert SoundAt(View(), id);
      if id in cancelled {
        return;
      }
      var snapshot := FinalSnapshot(sessions[id].snapshot, result);
      PublishKeepsSound(View(), id, snapshot);
      sessions := sessions[id := sessions[id].(snapshot := snapshot)];
      traces := traces[id := traces[id].(history := traces[id].history + [snapshot])];
    }

    /** The first part of `close`: the session leaves the table. */
    method RemoveSession(id: string) returns (record: Option<SessionRecord>)
      requires Valid()
      modifies this`sessions, this`traces
      ensures Valid()
      ensures id !in old(sessions) ==> record == None && View() == old(View())
      ensures id in old(sessions) ==>
                id in old(traces) && record == Some(old(sessions)[id]) && View() == Removed(old(View()), id)
    {
      if id !in sessions {
        return None;
      }
      record := Some(sessions[id]);
      RemoveKeepsSound(View(), id);
      traces := traces[id := traces[id].(closing := Taken(sessions[id].snapshot))];
      sessions := sessions - {id};
    }

    /** The second part of `close`: the worker is told to stop. */
    method MarkCancelled(id: string)
      requires Valid() && id in traces && traces[id].closing.Taken?
      modifies this`cancelled, this`traces
      ensures Valid() && View() == Flagged(old(View()), id)
    {
      FlagKeepsSound(View(), id);
      cancelled := cancelled + {id};
      traces := traces[id := traces[id].(closing := Told(traces[id].closing.snapshot))];
    }

    /** The third part of `close`: the cancellation is announced, from the record that was removed. */
    method AnnounceCancelled(id: string, record: SessionRecord)
      requires Valid() && id in traces && traces[id].closing == Told(record.snapshot)
      modifies this`traces
      ensures Valid() && View() == Announced(old(View()), id)
      ensures id in traces && traces[id].history != []
              && ReportsCancellation(Newest(traces[id].history), record.snapshot)
    {
      AnnounceKeepsSound(View(), id);
      traces := traces[id := Trace(traces[id].history + [CancelledSnapshot(record.snapshot)], Closed)];
    }
  }
}
