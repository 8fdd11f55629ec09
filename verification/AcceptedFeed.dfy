/**
 * The feed of accepted jobs: the queue the registry keeps and publishes, and the loop of `subscribe_accepted_jobs`
 * that delivers it to the main window through a conflating watch channel.
 */
module AcceptedFeed {
  import opened JobLifecycle

  datatype Origin = MainWindow | QuickAction | LocalSendAutoExtract | NativeDrag | PasswordRetry

  datatype StartedJob = StartedJob(jobId: string, kind: JobKind, createdAt: nat)

  datatype Envelope = Envelope(revision: nat, job: StartedJob, origin: Origin)

  // ---------------------------------------------------------------------------------------------
  // The queue
  // ---------------------------------------------------------------------------------------------

  /** The queue holds exactly the acceptances after the last acknowledged one, up to the last. */
  ghost predicate Contiguous(queue: seq<Envelope>, last: nat) {
    |queue| <= last && forall i {:trigger PlacedAt(queue, last, i)} :: 0 <= i < |queue| ==> PlacedAt(queue, last, i)
  }

  ghost predicate PlacedAt(queue: seq<Envelope>, last: nat, i: nat)
    requires i < |queue| <= last
  {
    queue[i].revision == last - |queue| + 1 + i
  }

  function Acknowledged(queue: seq<Envelope>, last: nat): (acked: nat)
    requires |queue| <= last
  {
    last - |queue|
  }

  predicate HasAcceptance(queue: seq<Envelope>, jobId: string, revision: nat) {
    exists i :: 0 <= i < |queue| && queue[i].job.jobId == jobId && queue[i].revision == revision
  }

  lemma ContiguousAppend(queue: seq<Envelope>, envelope: Envelope)
    requires envelope.revision > 0 && Contiguous(queue, envelope.revision - 1)
    ensures Contiguous(queue + [envelope], envelope.revision)
  {
    var longer := queue + [envelope];
    forall i | 0 <= i < |longer| ensures PlacedAt(longer, envelope.revision, i) {
      if i < |queue| {
        assert PlacedAt(queue, envelope.revision - 1, i);
      }
    }
  }

  lemma ContiguousSuffix(queue: seq<Envelope>, last: nat, n: nat)
    requires Contiguous(queue, last) && n <= |queue|
    ensures Contiguous(queue[n..], last)
    ensures n < |queue| ==> queue[n].revision == last - |queue| + 1 + n
  {
    forall i | 0 <= i < |queue[n..]| ensures PlacedAt(queue[n..], last, i) {
      assert PlacedAt(queue, last, n + i);
    }
    assert n < |queue| ==> PlacedAt(queue, last, n);
  }

  /** The loop of `acknowledge_accepted_job`: everything up to a queued revision leaves the queue. */
  method DropAcknowledged(queue: seq<Envelope>, revision: nat, ghost last: nat) returns (left: seq<Envelope>)
    requires Contiguous(queue, last) && exists i :: 0 <= i < |queue| && queue[i].revision == revision
    ensures Contiguous(left, last) && Acknowledged(left, last) == revision
    ensures Acknowledged(queue, last) < revision && left == queue[revision - Acknowledged(queue, last)..]
  {
    ghost var k :| 0 <= k < |queue| && queue[k].revision == revision;
    ContiguousSuffix(queue, last, k);
    left := queue;
    ghost var n := 0;
    while left != [] && left[0].revision <= revision
      invariant n <= k + 1 && left == queue[n..]
      decreases |left|
    {
      ContiguousSuffix(queue, last, n);
      left := left[1..];
      n := n + 1;
    }
    ContiguousSuffix(queue, last, n);
  }

  // ---------------------------------------------------------------------------------------------
  // The registry, the watch channel and the delivery loop as one transition system
  // ---------------------------------------------------------------------------------------------

  /** Where the loop stands: waiting for a change or a command, or going through a borrowed list. */
  datatype Phase = Waiting | Passing(from: nat, current: seq<Envelope>, next: nat) | Stopped

  /**
   * `log` is every acceptance so far and `acked` how many were acknowledged, so the queue, and with it the channel's
   * value, is the rest; `seen` says whether the loop borrowed that value. The subscriber started after `start`.
   */
  datatype State = State(
    log: seq<Envelope>, acked: nat, seen: bool, phase: Phase, start: nat, lastSent: nat, delivered: seq<Envelope>)

  datatype FeedStep =
    | Accept(job: StartedJob, origin: Origin) | AckUpTo(revision: nat) | Borrow | SendNext(ok: bool) | EndPass | Stop

  function Init(log: seq<Envelope>, acked: nat, start: nat): State {
    State(log, acked, false, Waiting, start, start, [])
  }

  function Queue(s: State): seq<Envelope>
    requires s.acked <= |s.log|
  {
    s.log[s.acked..]
  }

  predicate Enabled(s: State, step: FeedStep) {
    match step
    case Accept(_, _) => true
    case AckUpTo(revision) => s.acked < revision <= |s.log|
    case Borrow => s.phase.Waiting? && s.acked <= |s.log|
    case SendNext(_) => s.phase.Passing? && s.phase.next < |s.phase.current|
    case EndPass => s.phase.Passing? && s.phase.next >= |s.phase.current|
    case Stop => true
  }

  function SendOne(s: State, ok: bool): State
    requires s.phase.Passing? && s.phase.next < |s.phase.current|
  {
    var accepted := s.phase.current[s.phase.next];
    var onward := s.phase.(next := s.phase.next + 1);
    if accepted.revision <= s.lastSent then s.(phase := onward)
    else if ok then s.(phase := onward, lastSent := accepted.revision, delivered := s.delivered + [accepted])
    else s.(phase := Stopped)
  }

  function Apply(s: State, step: FeedStep): State
    requires Enabled(s, step)
  {
    match step
    case Accept(job, origin) => s.(log := s.log + [Envelope(|s.log| + 1, job, origin)], seen := false)
    case AckUpTo(revision) => s.(acked := revision, seen := false)
    case Borrow => s.(phase := Passing(s.acked, Queue(s), 0), seen := true)
    case SendNext(ok) => SendOne(s, ok)
    case EndPass => s.(phase := Waiting)
    case Stop => s.(phase := Stopped)
  }

  predicate Runs(s: State, steps: seq<FeedStep>)
    decreases |steps|
  {
    steps == [] || (Enabled(s, steps[0]) && Runs(Apply(s, steps[0]), steps[1..]))
  }

  function After(s: State, steps: seq<FeedStep>): State
    requires Runs(s, steps)
    decreases |steps|
  {
    if steps == [] then s else After(Apply(s, steps[0]), steps[1..])
  }

  // ---------------------------------------------------------------------------------------------
  // The invariant
  // ---------------------------------------------------------------------------------------------

  ghost predicate Numbered(log: seq<Envelope>) {
    forall i :: 0 <= i < |log| ==> log[i].revision == i + 1
  }

  /** What the loop is certain to have delivered when it next borrows the channel's value. */
  function Reach(s: State): nat {
    var end := if s.phase.Passing? then s.phase.from + |s.phase.current| else 0;
    if s.lastSent < end then end else s.lastSent
  }

  ghost predicate Delivered(s: State) {
    && s.start <= s.lastSent
    && (if s.lastSent == s.start then s.delivered == []
        else s.lastSent <= |s.log| && s.delivered == s.log[s.start..s.lastSent])
  }

  ghost predicate PassSound(s: State) {
    match s.phase
    case Waiting => s.seen ==> |s.log| <= s.lastSent
    case Passing(from, current, next) =>
      && next <= |current| && from + |current| <= |s.log| && current == s.log[from..from + |current|]
      && from + next <= s.lastSent
      && (s.seen ==> from + |current| == |s.log|)
    case Stopped => true
  }

  ghost predicate FeedInvariant(s: State) {
    Numbered(s.log) && s.acked <= |s.log| && Delivered(s) && PassSound(s) && (s.phase.Stopped? || s.acked <= Reach(s))
  }

  lemma InitFeed(log: seq<Envelope>, acked: nat, start: nat)
    requires Numbered(log) && acked <= |log| && acked <= start
    ensures FeedInvariant(Init(log, acked, start))
  {
  }

  lemma AcceptKeepsFeed(s: State, job: StartedJob, origin: Origin)
    requires FeedInvariant(s)
    ensures FeedInvariant(Apply(s, Accept(job, origin)))
  {
    var t := Apply(s, Accept(job, origin));
    if s.lastSent > s.start {
      assert t.log[s.start..s.lastSent] == s.log[s.start..s.lastSent];
    }
    if s.phase.Passing? {
      var from, n := s.phase.from, |s.phase.current|;
      assert t.log[from..from + n] == s.log[from..from + n];
    }
  }

  lemma SendKeepsFeed(s: State, ok: bool)
    requires FeedInvariant(s) && Enabled(s, SendNext(ok))
    ensures FeedInvariant(Apply(s, SendNext(ok)))
  {
    var k := s.phase.from + s.phase.next;
    var accepted := s.phase.current[s.phase.next];
    assert accepted == s.log[k] && accepted.revision == k + 1;
    if ok && accepted.revision > s.lastSent {
      assert s.log[s.start..k + 1] == s.log[s.start..k] + [s.log[k]];
    }
  }

  /** Exactly one thing can break the feed: an acknowledgement of what the loop is not certain to deliver. */
  lemma FeedStepIff(s: State, step: FeedStep)
    requires FeedInvariant(s) && Enabled(s, step)
    ensures FeedInvariant(Apply(s, step)) <==> !step.AckUpTo? || s.phase.Stopped? || step.revision <= Reach(s)
  {
    match step
    case Accept(job, origin) => AcceptKeepsFeed(s, job, origin);
    case SendNext(ok) => SendKeepsFeed(s, ok);
    case Borrow => assert Queue(s) == s.log[s.acked..s.acked + |Queue(s)|];
    case _ =>
  }

  /** No acknowledgement runs ahead of what was sent to the subscriber, or is on its way in the current pass. */
  predicate AcksWithinReach(s: State, steps: seq<FeedStep>)
    requires Runs(s, steps)
    decreases |steps|
  {
    steps == []
        || ((steps[0].AckUpTo? ==> steps[0].revision <= Reach(s)) && AcksWithinReach(Apply(s, steps[0]), steps[1..]))
  }

  lemma {:induction false} FeedRun(s: State, steps: seq<FeedStep>)
    requires FeedInvariant(s) && Runs(s, steps) && AcksWithinReach(s, steps)
    ensures FeedInvariant(After(s, steps)) && After(s, steps).start == s.start
    decreases |steps|
  {
    if steps != [] {
      FeedStepIff(s, steps[0]);
      FeedRun(Apply(s, steps[0]), steps[1..]);
    }
  }

  /**
   * The feed delivers what was accepted: a subscriber that starts at or after the last acknowledgement has, in every
   * reachable state, received the acceptances after its start in order, once each and without gaps; and when the
   * loop waits with nothing unseen, it has received all of them.
   */
  lemma FeedDelivers(log: seq<Envelope>, acked: nat, start: nat, steps: seq<FeedStep>)
    requires Numbered(log) && acked <= |log| && acked <= start
    requires Runs(Init(log, acked, start), steps) && AcksWithinReach(Init(log, acked, start), steps)
    ensures var s := After(Init(log, acked, start), steps);
      && (forall i :: 0 <= i < |s.delivered| ==> s.delivered[i].revision == start + 1 + i)
      && (forall i :: 0 <= i < |s.delivered| ==> start + i < |s.log| && s.delivered[i] == s.log[start + i])
      && (s.phase.Waiting? && s.seen && start <= |s.log| ==> s.delivered == s.log[start..])
  {
    InitFeed(log, acked, start);
    FeedRun(Init(log, acked, start), steps);
  }

  // ---------------------------------------------------------------------------------------------
  // Progress
  // ---------------------------------------------------------------------------------------------

  predicate Idle(s: State) {
    s.phase.Waiting? && s.seen
  }

  /** The loop's own steps, with sends that succeed. */
  predicate Working(step: FeedStep) {
    step.Borrow? || step == SendNext(true) || step.EndPass?
  }

  function WorkLeft(s: State): nat
    requires s.acked <= |s.log|
  {
    match s.phase
    case Stopped => 0
    case Waiting => if s.seen then 0 else |Queue(s)| + 2
    case Passing(_, current, next) =>
      (if next < |current| then |current| - next else 0) + 1 + if s.seen then 0 else |Queue(s)| + 2
  }

  function NextWork(s: State): FeedStep {
    if s.phase.Passing? then (if s.phase.next < |s.phase.current| then SendNext(true) else EndPass) else Borrow
  }

  lemma WorkDecreases(s: State)
    requires FeedInvariant(s) && !s.phase.Stopped? && !Idle(s)
    ensures Enabled(s, NextWork(s)) && Working(NextWork(s))
    ensures var t := Apply(s, NextWork(s));
      t.acked == s.acked && t.log == s.log && t.start == s.start && !t.phase.Stopped? && WorkLeft(t) == WorkLeft(s) - 1
  {
  }

  /** While nothing new is accepted or acknowledged, the loop comes to rest after exactly the work left. */
  lemma {:induction false} Drains(s: State) returns (steps: seq<FeedStep>)
    requires FeedInvariant(s) && !s.phase.Stopped?
    ensures |steps| == WorkLeft(s) && Runs(s, steps) && (forall i :: 0 <= i < |steps| ==> Working(steps[i]))
    ensures Idle(After(s, steps)) && After(s, steps).log == s.log
    ensures s.start <= |s.log| ==> After(s, steps).delivered == s.log[s.start..]
    decreases WorkLeft(s)
  {
    if Idle(s) {
      steps := [];
    } else {
      var step := NextWork(s);
      WorkDecreases(s);
      FeedStepIff(s, step);
      var rest := Drains(Apply(s, step));
      steps := [step] + rest;
      assert steps[1..] == rest;
    }
  }

  // ---------------------------------------------------------------------------------------------
  // What an acknowledgement ahead of the sends costs
  // ---------------------------------------------------------------------------------------------

  /** Revision `revision` was acknowledged before it was sent, and no borrowed list still holds it. */
  ghost predicate Lost(s: State, revision: nat) {
    && Numbered(s.log) && revision <= s.acked <= |s.log|
    && (forall i :: 0 <= i < |s.delivered| ==> s.delivered[i].revision != revision)
    && (s.phase.Passing? ==> forall i :: 0 <= i < |s.phase.current| ==> s.phase.current[i].revision != revision)
  }

  /** The iff above is sharp: an acceptance acknowledged out of the loop's reach is never delivered. */
  lemma {:induction false} LostForever(s: State, revision: nat, steps: seq<FeedStep>)
    requires Lost(s, revision) && Runs(s, steps)
    ensures Lost(After(s, steps), revision)
    decreases |steps|
  {
    if steps != [] {
      LostForever(Apply(s, steps[0]), revision, steps[1..]);
    }
  }

  lemma EarlyAckLoses(s: State, revision: nat)
    requires FeedInvariant(s) && !s.phase.Stopped? && Enabled(s, AckUpTo(revision)) && revision > Reach(s)
    ensures Lost(Apply(s, AckUpTo(revision)), revision)
  {
    if s.phase.Passing? {
      forall i | 0 <= i < |s.phase.current| ensures s.phase.current[i].revision != revision {
        assert s.phase.current[i] == s.log[s.phase.from + i];
      }
    }
  }
}
