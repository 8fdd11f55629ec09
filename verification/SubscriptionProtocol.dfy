/**
 * The delivery protocol of one snapshot subscription: the publisher's conflating watch channel, the
 * forwarding task (`forward_latest_values`), the bounded command channel and the client's
 * acknowledgements (`acknowledge_subscription`).
 *
 * Every critical section of the source is one step: the two flow locks taken while an acknowledgement
 * is handled are separate steps, and so are the look at the flow and the claim of it after a change.
 * The choices of `tokio::select!`, of the publisher and of the client are the choice of the next step.
 */
module SubscriptionProtocol {
  import opened Wrappers

  const CHANNEL_CAPACITY := 4

  datatype Command = Ack(revision: nat) | Stop

  datatype Flow = Flow(inFlight: Option<nat>, ackQueued: bool)

  datatype AckError = NewerThanInFlight | Busy

  datatype AckOutcome = AckOutcome(reply: Result<(), AckError>, flow: Flow, commands: seq<Command>)

  /**
   * The body of `acknowledge_subscription` once the subscription is found and its owner checked.
   * `open` says whether the receiving task still holds its end of the command channel.
   */
  function Acknowledge(flow: Flow, commands: seq<Command>, open: bool, revision: nat): (outcome: AckOutcome)
    ensures outcome.reply == Err(NewerThanInFlight) <==> flow.inFlight.Some? && revision > flow.inFlight.value
    ensures outcome.reply == Err(Busy)
            <==> flow == Flow(Some(revision), false) && (!open || |commands| >= CHANNEL_CAPACITY)
    ensures outcome.flow == flow && outcome.commands == commands
            <==> flow != Flow(Some(revision), false) || outcome.reply.Err?
    ensures outcome.flow != flow ==>
              outcome.flow == Flow(Some(revision), true) && outcome.commands == commands + [Ack(revision)]
  {
    match flow.inFlight
    case None => AckOutcome(Ok(()), flow, commands)
    case Some(sent) =>
      if revision > sent then AckOutcome(Err(NewerThanInFlight), flow, commands)
      else if revision < sent || flow.ackQueued then AckOutcome(Ok(()), flow, commands)
      else if open && |commands| < CHANNEL_CAPACITY then
        AckOutcome(Ok(()), flow.(ackQueued := true), commands + [Ack(revision)])
      else AckOutcome(Err(Busy), flow, commands)
  }

  /** Where the forwarding task stands between two critical sections. */
  datatype Phase =
    | Starting
    | Announcing
    | Selecting
    | AckTaken(revision: nat)
    | AckCleared(revision: nat)
    | ChangeTaken
    | Claiming
    | Sending
    | Stopped

  /**
   * `newest` is the watch channel's value (a snapshot is named by its revision) and `seen` the last one
   * the receiver borrowed; `current` and `inFlight` are the task's own variables. `claimed`, `delivered`
   * and `acked` are the histories of revisions put in flight, sent, and acknowledged into the channel.
   */
  datatype State = State(
    newest: nat, publisherOpen: bool, seen: nat, current: nat, inFlight: nat,
    flow: Flow, commands: seq<Command>, registered: bool, phase: Phase,
    claimed: seq<nat>, delivered: seq<nat>, acked: seq<nat>)

  datatype Step =
    | Publish(revision: nat)
    | DropPublisher
    | ClientAck(revision: nat)
    | Unsubscribe
    | Borrow
    | Announce
    | Send(ok: bool)
    | TakeCommand
    | CommandsClosed
    | ClearAck
    | ResolveAck
    | TakeChange
    | ConsultFlow
    | Claim
    | PublisherGone

  function Init(revision: nat): State {
    State(revision, true, revision, revision, 0, Flow(None, false), [], true, Starting, [], [], [])
  }

  predicate Enabled(s: State, step: Step) {
    match step
    case Publish(revision) => s.publisherOpen && revision > s.newest
    case DropPublisher => s.publisherOpen
    case ClientAck(_) => s.registered
    case Unsubscribe => s.registered
    case Borrow => s.phase == Starting
    case Announce => s.phase == Announcing
    case Send(_) => s.phase == Sending
    case TakeCommand => s.phase == Selecting && s.commands != []
    case CommandsClosed => s.phase == Selecting && s.commands == [] && !s.registered
    case ClearAck => s.phase.AckTaken?
    case ResolveAck => s.phase.AckCleared?
    case TakeChange => s.phase == Selecting && s.seen != s.newest
    case ConsultFlow => s.phase == ChangeTaken
    case Claim => s.phase == Claiming
    case PublisherGone => s.phase == Selecting && s.seen == s.newest && !s.publisherOpen
  }

  function PutInFlight(s: State): State {
    s.(inFlight := s.current, flow := s.flow.(inFlight := Some(s.current)), claimed := s.claimed + [s.current],
        phase := Sending)
  }

  function Apply(s: State, step: Step): State
    requires Enabled(s, step)
  {
    match step
    case Publish(revision) => s.(newest := revision)
    case DropPublisher => s.(publisherOpen := false)
    case ClientAck(revision) =>
      var outcome := Acknowledge(s.flow, s.commands, s.phase != Stopped, revision);
      s.(flow := outcome.flow, commands := outcome.commands,
         acked := if outcome.commands != s.commands then s.acked + [revision] else s.acked)
    case Unsubscribe =>
      s.(registered := false,
         commands := if s.phase != Stopped && |s.commands| < CHANNEL_CAPACITY then s.commands + [Stop] else s.commands)
    case Borrow => s.(current := s.newest, seen := s.newest, inFlight := s.newest, phase := Announcing)
    case Announce => s.(flow := Flow(Some(s.inFlight), false), claimed := [s.inFlight], phase := Sending)
    case Send(ok) => if ok then s.(delivered := s.delivered + [s.current], phase := Selecting) else s.(phase := Stopped)
    case TakeCommand =>
      var rest := s.(commands := s.commands[1..]);
      (match s.commands[0]
       case Stop => rest.(phase := Stopped)
       case Ack(revision) => if revision == s.inFlight then rest.(phase := AckTaken(revision)) else rest)
    case CommandsClosed => s.(phase := Stopped)
    case ClearAck => s.(flow := s.flow.(ackQueued := false), phase := AckCleared(s.phase.revision))
    case ResolveAck =>
      if s.current > s.phase.revision then PutInFlight(s)
      else s.(flow := s.flow.(inFlight := None), phase := Selecting)
    case TakeChange => s.(current := s.newest, seen := s.newest, phase := ChangeTaken)
    case ConsultFlow => s.(phase := if s.flow.inFlight == None then Claiming else Selecting)
    case Claim => PutInFlight(s)
    case PublisherGone => s.(phase := Stopped)
  }

  predicate Runs(s: State, steps: seq<Step>)
    decreases |steps|
  {
    steps == [] || (Enabled(s, steps[0]) && Runs(Apply(s, steps[0]), steps[1..]))
  }

  function After(s: State, steps: seq<Step>): State
    requires Runs(s, steps)
    decreases |steps|
  {
    if steps == [] then s else After(Apply(s, steps[0]), steps[1..])
  }

  // ---------------------------------------------------------------------------------------------
  // The inductive invariant
  // ---------------------------------------------------------------------------------------------

  ghost predicate StrictlyIncreasing(s: seq<nat>) {
    forall i, j :: 0 <= i < j < |s| ==> s[i] < s[j]
  }

  ghost function ButLast(s: seq<nat>): seq<nat> {
    if s == [] then [] else s[..|s| - 1]
  }

  /** The acknowledgement sitting in the command channel, if the flow says there is one. */
  ghost function QueuedAck(s: State): seq<Command> {
    if s.flow.ackQueued && !s.phase.AckTaken? then [Ack(s.inFlight)] else []
  }

  ghost predicate Histories(s: State) {
    && StrictlyIncreasing(s.claimed)
    && s.seen <= s.newest
    && (s.delivered == s.claimed || s.delivered == ButLast(s.claimed))
    && |s.delivered| <= |s.acked| + 1
  }

  ghost predicate BeforeFirstSend(s: State) {
    && s.flow == Flow(None, false)
    && s.claimed == [] && s.delivered == [] && s.acked == []
    && (s.phase == Announcing ==> s.inFlight == s.current == s.seen)
  }

  ghost predicate Handshake(s: State) {
    && s.claimed != [] && s.inFlight == s.claimed[|s.claimed| - 1]
    && s.current == s.seen && s.inFlight <= s.current
    && s.delivered == (if s.phase == Sending then ButLast(s.claimed) else s.claimed)
    && (s.phase == Sending ==> s.inFlight == s.current && s.flow.inFlight.Some?)
    && match s.flow.inFlight
       case None =>
         && !s.flow.ackQueued && s.acked == s.claimed
         && (s.phase == Selecting || s.phase == ChangeTaken || s.phase == Claiming)
         && (s.phase == Selecting <==> s.inFlight == s.current)
       case Some(revision) =>
         && revision == s.inFlight
         && s.phase != Claiming
         && (s.phase.AckTaken? ==> s.phase.revision == revision && s.flow.ackQueued)
         && (s.phase.AckCleared? ==> s.phase.revision == revision && !s.flow.ackQueued)
         && s.acked == (if s.flow.ackQueued || s.phase.AckCleared? then s.claimed else ButLast(s.claimed))
  }

  ghost predicate Invariant(s: State) {
    && Histories(s)
    && (s.phase != Stopped ==>
          && (s.commands == QueuedAck(s) || (!s.registered && s.commands == QueuedAck(s) + [Stop]))
          && (if s.phase == Starting || s.phase == Announcing then BeforeFirstSend(s) else Handshake(s)))
  }

  lemma InitInvariant(revision: nat)
    ensures Invariant(Init(revision))
  {
  }

  /** A second acknowledgement of the same revision, arriving between the two locks of the first. */
  predicate WindowDuplicate(s: State, step: Step) {
    s.registered && s.phase.AckCleared? && step == ClientAck(s.phase.revision)
  }

  lemma AppendKeepsIncreasing(s: seq<nat>, x: nat)
    requires StrictlyIncreasing(s)
    requires s == [] || s[|s| - 1] < x
    ensures StrictlyIncreasing(s + [x])
    ensures ButLast(s + [x]) == s
  {
    assert (s + [x])[..|s|] == s;
  }

  lemma ClientAckKeepsInvariant(s: State, revision: nat)
    requires Invariant(s) && Enabled(s, ClientAck(revision)) && !WindowDuplicate(s, ClientAck(revision))
    ensures Invariant(Apply(s, ClientAck(revision)))
  {
    var s' := Apply(s, ClientAck(revision));
    if s'.commands != s.commands {
      assert s.phase != Stopped;
      assert s.acked + [revision] == s.claimed;
    }
  }

  /** Steps of the publisher and of the subscription table, and the two steps before the first delivery. */
  lemma OuterStepKeepsInvariant(s: State, step: Step)
    requires Invariant(s) && Enabled(s, step)
    requires step.Publish? || step.DropPublisher? || step.Unsubscribe? || step.CommandsClosed? || step.PublisherGone?
        || step.Borrow?
    ensures Invariant(Apply(s, step))
  {
  }

  lemma PutInFlightKeepsInvariant(s: State)
    requires Invariant(s) && (s.phase == Claiming || s.phase.AckCleared?) && s.inFlight < s.current
    ensures Invariant(PutInFlight(s))
  {
    var t := PutInFlight(s);
    AppendKeepsIncreasing(s.claimed, s.current);
    assert t.claimed == s.claimed + [s.current] && t.claimed[|t.claimed| - 1] == s.current;
    assert t.delivered == t.acked == ButLast(t.claimed);
    assert QueuedAck(t) == [];
  }

  lemma AnnounceKeepsInvariant(s: State)
    requires Invariant(s) && Enabled(s, Announce)
    ensures Invariant(Apply(s, Announce))
  {
    var s' := Apply(s, Announce);
    assert ButLast(s'.claimed) == [];
  }

  lemma TakeCommandKeepsInvariant(s: State)
    requires Invariant(s) && Enabled(s, TakeCommand)
    ensures Invariant(Apply(s, TakeCommand))
  {
    assert s.commands[0] == Stop || s.commands[1..] == [] || s.commands[1..] == [Stop];
  }

  lemma SendKeepsInvariant(s: State, ok: bool)
    requires Invariant(s) && Enabled(s, Send(ok))
    ensures Invariant(Apply(s, Send(ok)))
  {
    assert ButLast(s.claimed) + [s.claimed[|s.claimed| - 1]] == s.claimed;
  }

  lemma FlowStepKeepsInvariant(s: State, step: Step)
    requires Invariant(s) && Enabled(s, step)
    requires step == ClearAck || step == ConsultFlow || (step == ResolveAck && s.current <= s.phase.revision)
    ensures Invariant(Apply(s, step))
  {
  }

  lemma TakeChangeKeepsInvariant(s: State)
    requires Invariant(s) && Enabled(s, TakeChange)
    ensures Invariant(Apply(s, TakeChange))
  {
  }

  lemma StepKeepsInvariant(s: State, step: Step)
    requires Invariant(s) && Enabled(s, step) && !WindowDuplicate(s, step)
    ensures Invariant(Apply(s, step))
  {
    match step
    case ClientAck(revision) => ClientAckKeepsInvariant(s, revision);
    case Announce => AnnounceKeepsInvariant(s);
    case Claim => PutInFlightKeepsInvariant(s);
    case ResolveAck =>
      if s.current > s.phase.revision { PutInFlightKeepsInvariant(s); } else { FlowStepKeepsInvariant(s, step); }
    case Send(ok) => SendKeepsInvariant(s, ok);
    case ClearAck => FlowStepKeepsInvariant(s, step);
    case TakeChange => TakeChangeKeepsInvariant(s);
    case ConsultFlow => FlowStepKeepsInvariant(s, step);
    case TakeCommand => TakeCommandKeepsInvariant(s);
    case _ => OuterStepKeepsInvariant(s, step);
  }

  /** The invariant survives a step exactly when the step is not a duplicate inside the window. */
  lemma StepKeepsInvariantIff(s: State, step: Step)
    requires Invariant(s) && Enabled(s, step)
    ensures Invariant(Apply(s, step)) <==> !WindowDuplicate(s, step)
  {
    if !WindowDuplicate(s, step) {
      StepKeepsInvariant(s, step);
    } else {
      var s' := Apply(s, step);
      assert s'.phase == s.phase && s'.flow.ackQueued;
    }
  }

  // ---------------------------------------------------------------------------------------------
  // Whole runs
  // ---------------------------------------------------------------------------------------------

  predicate NoWindowDuplicate(s: State, steps: seq<Step>)
    requires Runs(s, steps)
    decreases |steps|
  {
    steps == [] || (!WindowDuplicate(s, steps[0]) && NoWindowDuplicate(Apply(s, steps[0]), steps[1..]))
  }

  lemma {:induction false} RunKeepsInvariant(s: State, steps: seq<Step>)
    requires Invariant(s) && Runs(s, steps) && NoWindowDuplicate(s, steps)
    ensures Invariant(After(s, steps))
    decreases |steps|
  {
    if steps != [] {
      StepKeepsInvariant(s, steps[0]);
      RunKeepsInvariant(Apply(s, steps[0]), steps[1..]);
    }
  }

  /** The client acknowledges no revision twice, nor any of those in `past`. */
  ghost predicate AcksOnce(past: set<nat>, steps: seq<Step>)
    decreases |steps|
  {
    steps == [] ||
    (match steps[0]
     case ClientAck(revision) => revision !in past && AcksOnce(past + {revision}, steps[1..])
     case _ => AcksOnce(past, steps[1..]))
  }

  lemma ClearedAckIsRecorded(s: State, step: Step)
    requires Invariant(s) && Enabled(s, step) && WindowDuplicate(s, step)
    ensures step.revision in s.acked
  {
    assert s.acked[|s.acked| - 1] == s.phase.revision;
  }

  lemma AckedGrowsByAcks(s: State, step: Step)
    requires Enabled(s, step)
    ensures forall r :: r in Apply(s, step).acked ==> r in s.acked || step == ClientAck(r)
  {
  }

  lemma {:induction false} AcksOnceAvoidsWindow(s: State, past: set<nat>, steps: seq<Step>)
    requires Invariant(s) && Runs(s, steps) && AcksOnce(past, steps)
    requires forall r :: r in s.acked ==> r in past
    ensures NoWindowDuplicate(s, steps)
    decreases |steps|
  {
    if steps != [] {
      if WindowDuplicate(s, steps[0]) {
        ClearedAckIsRecorded(s, steps[0]);
      }
      StepKeepsInvariant(s, steps[0]);
      AckedGrowsByAcks(s, steps[0]);
      var past' := if steps[0].ClientAck? then past + {steps[0].revision} else past;
      AcksOnceAvoidsWindow(Apply(s, steps[0]), past', steps[1..]);
    }
  }

  /** So such a client never meets the window, and every state it reaches satisfies the invariant. */
  lemma AcksOnceKeepsInvariant(revision: nat, steps: seq<Step>)
    requires Runs(Init(revision), steps) && AcksOnce({}, steps)
    ensures Invariant(After(Init(revision), steps))
  {
    InitInvariant(revision);
    AcksOnceAvoidsWindow(Init(revision), {}, steps);
    RunKeepsInvariant(Init(revision), steps);
  }

  /**
   * The acknowledgement handshake in any state of the invariant: while the task runs, the flag is up exactly
   * when the channel holds the acknowledgement of the in-flight revision (or the task has just taken it out),
   * no refusal is ever caused by a full channel, and the first acknowledgement of the in-flight revision is
   * always queued.
   */
  lemma HandshakeFacts(s: State, revision: nat)
    requires Invariant(s) && s.registered && s.phase != Stopped
    ensures s.flow.ackQueued && !s.phase.AckTaken? <==> s.commands != []
    ensures s.commands != [] ==> s.flow.inFlight.Some? && s.commands == [Ack(s.flow.inFlight.value)]
    ensures Acknowledge(s.flow, s.commands, true, revision).reply != Err(Busy)
    ensures s.flow.inFlight == Some(revision) && revision !in s.acked ==>
              Apply(s, ClientAck(revision)).commands == s.commands + [Ack(revision)]
  {
    if s.flow.inFlight == Some(revision) && (s.flow.ackQueued || s.phase.AckCleared?) {
      assert s.acked[|s.acked| - 1] == revision;
    }
  }

  // ---------------------------------------------------------------------------------------------
  // Safety, whatever the client acknowledges
  // ---------------------------------------------------------------------------------------------

  /** How much of the channel can be taken: an acknowledgement while the flag is up, and a stop at the end. */
  function RoomTaken(s: State): nat {
    (if s.flow.ackQueued && !s.phase.AckTaken? then 1 else 0) + (if s.registered then 0 else 1)
  }

  ghost predicate SafeHistories(s: State) {
    && StrictlyIncreasing(s.claimed) && s.seen <= s.newest
    && (s.delivered == s.claimed || s.delivered == ButLast(s.claimed))
    && forall r :: r in ButLast(s.claimed) ==> r in s.acked
  }

  ghost predicate SafeChannel(s: State) {
    && |s.commands| <= RoomTaken(s) && (forall r :: Ack(r) in s.commands ==> r in s.acked)
    && (s.phase.AckTaken? && s.registered ==> s.flow.ackQueued)
  }

  /** Where a running task stands: whatever it may put in flight next, the last delivery is acknowledged by then. */
  ghost predicate SafePosition(s: State) {
    if s.phase == Starting || s.phase == Announcing then
      && s.flow == Flow(None, false) && s.claimed == [] && s.delivered == []
      && (s.phase == Announcing ==> s.inFlight == s.current == s.seen)
    else
      && s.claimed != [] && s.inFlight == s.claimed[|s.claimed| - 1] && s.inFlight <= s.current == s.seen
      && s.delivered == (if s.phase == Sending then ButLast(s.claimed) else s.claimed)
      && (s.flow.inFlight == Some(s.inFlight) || (s.flow.inFlight == None && s.inFlight in s.acked))
      && match s.phase
         case Sending => s.inFlight == s.current
         case ChangeTaken => s.inFlight < s.current
         case Claiming => s.inFlight < s.current && s.flow.inFlight == None
         case Selecting => s.flow.inFlight == None ==> s.inFlight == s.current
         case AckTaken(revision) => revision == s.inFlight && revision in s.acked
         case AckCleared(revision) => revision == s.inFlight && revision in s.acked
         case _ => true
  }

  ghost predicate Safe(s: State) {
    SafeHistories(s) && (s.phase != Stopped ==> SafeChannel(s) && SafePosition(s))
  }

  /** The next claim leaves only acknowledged ones behind. */
  lemma ClaimedAreAcked(s: State)
    requires SafeHistories(s) && s.claimed != [] && s.claimed[|s.claimed| - 1] in s.acked
    requires s.claimed[|s.claimed| - 1] < s.current && s.delivered == s.claimed
    ensures SafeHistories(PutInFlight(s)) && ButLast(PutInFlight(s).claimed) == s.claimed
  {
    AppendKeepsIncreasing(s.claimed, s.current);
    assert s.claimed == ButLast(s.claimed) + [s.claimed[|s.claimed| - 1]];
  }

  lemma PutInFlightIsSafe(s: State)
    requires Safe(s) && (s.phase == Claiming || s.phase.AckCleared?) && s.inFlight < s.current
    ensures Safe(PutInFlight(s))
  {
    ClaimedAreAcked(s);
    assert SafeChannel(PutInFlight(s));
    assert SafePosition(PutInFlight(s));
  }

  lemma SendIsSafe(s: State, ok: bool)
    requires Safe(s) && Enabled(s, Send(ok))
    ensures Safe(Apply(s, Send(ok)))
  {
    assert ButLast(s.claimed) + [s.claimed[|s.claimed| - 1]] == s.claimed;
  }

  lemma ChannelAfterTaking(s: State)
    requires SafeChannel(s) && s.commands != []
    ensures |s.commands[1..]| <= RoomTaken(s) - 1
    ensures s.commands[0].Ack? ==> s.commands[0].revision in s.acked
    ensures forall r :: Ack(r) in s.commands[1..] ==> r in s.acked
  {
    assert s.commands[0] in s.commands;
    forall r | Ack(r) in s.commands[1..] ensures r in s.acked {
      assert Ack(r) in s.commands;
    }
  }

  lemma TakeCommandIsSafe(s: State)
    requires Safe(s) && Enabled(s, TakeCommand)
    ensures Safe(Apply(s, TakeCommand))
  {
    var t := Apply(s, TakeCommand);
    ChannelAfterTaking(s);
    assert SafeHistories(t);
    if t.phase != Stopped {
      assert SafeChannel(t);
    }
  }

  lemma ClientAckIsSafe(s: State, revision: nat)
    requires Safe(s) && Enabled(s, ClientAck(revision))
    ensures Safe(Apply(s, ClientAck(revision)))
  {
  }

  lemma OuterStepIsSafe(s: State, step: Step)
    requires Safe(s) && Enabled(s, step)
    requires step.Publish? || step.DropPublisher? || step.Unsubscribe? || step.CommandsClosed? || step.PublisherGone?
    ensures Safe(Apply(s, step))
  {
  }

  lemma OpeningStepIsSafe(s: State, step: Step)
    requires Safe(s) && Enabled(s, step) && (step.Borrow? || step.Announce?)
    ensures Safe(Apply(s, step))
  {
  }

  lemma FlowStepIsSafe(s: State, step: Step)
    requires Safe(s) && Enabled(s, step)
    requires step == ClearAck || step == TakeChange || step == ConsultFlow
        || (step == ResolveAck && s.current <= s.phase.revision)
    ensures Safe(Apply(s, step))
  {
  }

  lemma StepIsSafe(s: State, step: Step)
    requires Safe(s) && Enabled(s, step)
    ensures Safe(Apply(s, step))
  {
    match step
    case ClientAck(revision) => ClientAckIsSafe(s, revision);
    case TakeCommand => TakeCommandIsSafe(s);
    case Send(ok) => SendIsSafe(s, ok);
    case Claim => PutInFlightIsSafe(s);
    case ResolveAck =>
      if s.current > s.phase.revision { PutInFlightIsSafe(s); } else { FlowStepIsSafe(s, step); }
    case ClearAck => FlowStepIsSafe(s, step);
    case TakeChange => FlowStepIsSafe(s, step);
    case ConsultFlow => FlowStepIsSafe(s, step);
    case Borrow => OpeningStepIsSafe(s, step);
    case Announce => OpeningStepIsSafe(s, step);
    case _ => OuterStepIsSafe(s, step);
  }

  lemma {:induction false} RunIsSafe(s: State, steps: seq<Step>)
    requires Safe(s) && Runs(s, steps)
    ensures Safe(After(s, steps))
    decreases |steps|
  {
    if steps != [] {
      StepIsSafe(s, steps[0]);
      RunIsSafe(Apply(s, steps[0]), steps[1..]);
    }
  }

  /** Different revisions that are all in `acked` are not more than `acked` holds. */
  lemma {:induction false} IncreasingWithin(s: seq<nat>, acked: seq<nat>)
    requires StrictlyIncreasing(s) && forall r :: r in s ==> r in acked
    ensures |s| <= |acked|
    decreases |acked|
  {
    if s != [] {
      var last := s[|s| - 1];
      assert last in s;
      var i :| 0 <= i < |acked| && acked[i] == last;
      var front, rest := ButLast(s), acked[..i] + acked[i + 1..];
      assert acked == acked[..i] + [last] + acked[i + 1..];
      forall r | r in front ensures r in rest {
        assert r in s && r in acked && r < last;
      }
      IncreasingWithin(front, rest);
    }
  }

  lemma DeliveriesAreAcked(s: State)
    requires SafeHistories(s)
    ensures StrictlyIncreasing(s.delivered) && |s.delivered| <= |s.acked| + 1
    ensures forall i :: 0 <= i < |s.delivered| - 1 ==> s.delivered[i] in s.acked
  {
    var acknowledged := ButLast(s.delivered);
    forall r | r in acknowledged ensures r in s.acked {
      assert r in ButLast(s.claimed);
    }
    IncreasingWithin(acknowledged, s.acked);
    forall i | 0 <= i < |s.delivered| - 1 ensures s.delivered[i] in s.acked {
      assert acknowledged[i] == s.delivered[i];
    }
  }

  /** What a client that acknowledges `r` now is told, by what was put in flight and delivered so far. */
  ghost predicate RepliedRightly(s: State, r: nat) {
    var reply := Acknowledge(s.flow, s.commands, true, r).reply;
    && (reply == Err(NewerThanInFlight) <==> s.flow.inFlight.Some? && forall c :: c in s.claimed ==> c < r)
    && (reply != Err(NewerThanInFlight) ==> reply == Ok(()))
    && (r in s.delivered ==> reply == Ok(()))
  }

  lemma SafeReplies(s: State, r: nat)
    requires Safe(s) && s.phase != Stopped
    ensures RepliedRightly(s, r)
  {
    if s.flow.inFlight.Some? {
      assert s.inFlight in s.claimed;
      forall c | c in s.claimed ensures c <= s.inFlight {
        var i :| 0 <= i < |s.claimed| && s.claimed[i] == c;
      }
      assert forall c :: c in s.delivered ==> c in s.claimed;
    }
  }

  /**
   * Safety over every interleaving and every client, duplicates in the window included: deliveries strictly increase,
   * all but the last of them were acknowledged, nothing in flight means the task's current value is the last one
   * delivered, and the channel never holds more than two commands. An acknowledgement is refused exactly when
   * something is in flight and it names a revision beyond all that were ever put in flight; in particular any
   * delivered revision can be acknowledged again.
   */
  lemma DeliverySafety(revision: nat, steps: seq<Step>)
    requires Runs(Init(revision), steps)
    ensures var s := After(Init(revision), steps);
      && StrictlyIncreasing(s.delivered)
      && (forall i :: 0 <= i < |s.delivered| - 1 ==> s.delivered[i] in s.acked)
      && |s.delivered| <= |s.acked| + 1
      && (s.phase == Selecting && s.flow.inFlight == None ==>
            s.delivered != [] && s.delivered[|s.delivered| - 1] == s.current)
      && (s.phase != Stopped ==> |s.commands| <= 2 && forall r :: RepliedRightly(s, r))
  {
    RunIsSafe(Init(revision), steps);
    var s := After(Init(revision), steps);
    DeliveriesAreAcked(s);
    if s.phase != Stopped {
      forall r ensures RepliedRightly(s, r) {
        SafeReplies(s, r);
      }
    }
  }

  lemma {:induction false} NothingAfterStop(s: State, steps: seq<Step>)
    requires s.phase == Stopped && Runs(s, steps)
    ensures After(s, steps).delivered == s.delivered && After(s, steps).phase == Stopped
    decreases |steps|
  {
    if steps != [] {
      NothingAfterStop(Apply(s, steps[0]), steps[1..]);
    }
  }

  /** A stop ends the task where it is taken: nothing is delivered after it, whatever else happens. */
  lemma StopEndsDelivery(s: State, steps: seq<Step>)
    requires Enabled(s, TakeCommand) && s.commands[0] == Stop && Runs(Apply(s, TakeCommand), steps)
    ensures After(Apply(s, TakeCommand), steps).delivered == s.delivered
  {
    NothingAfterStop(Apply(s, TakeCommand), steps);
  }

  /** Ending a subscription is never lost to a full channel: a running task finds the stop as the last command. */
  lemma StopAlwaysFits(revision: nat, steps: seq<Step>)
    requires Runs(Init(revision), steps) && Enabled(After(Init(revision), steps), Unsubscribe)
    ensures var s := After(Init(revision), steps);
      s.phase != Stopped ==> Apply(s, Unsubscribe).commands == s.commands + [Stop]
  {
    RunIsSafe(Init(revision), steps);
  }

  // ---------------------------------------------------------------------------------------------
  // Quiescence
  // ---------------------------------------------------------------------------------------------

  /** The steps left when nobody publishes, unsubscribes or fails a send, and every acknowledgement counts. */
  predicate Settling(s: State, step: Step) {
    Enabled(s, step) &&
    match step
    case Publish(_) => false
    case DropPublisher => false
    case Unsubscribe => false
    case CommandsClosed => false
    case PublisherGone => false
    case ClientAck(_) => Apply(s, step) != s && !WindowDuplicate(s, step)
    case Send(ok) => ok
    case _ => true
  }

  predicate SettlingRun(s: State, steps: seq<Step>)
    requires Runs(s, steps)
    decreases |steps|
  {
    steps == [] || (Settling(s, steps[0]) && SettlingRun(Apply(s, steps[0]), steps[1..]))
  }

  predicate Quiescent(s: State) {
    s.phase == Selecting && s.commands == [] && s.flow.inFlight == None && s.seen == s.newest
  }

  /** An upper bound on the sends still to come. */
  function SendsLeft(s: State): nat {
    if s.phase == Starting then 1
    else
      (if s.phase == Announcing || s.phase == Sending then 1 else 0) +
      (if s.inFlight < s.current then 1 else 0) +
      (if s.seen != s.newest then 1 else 0)
  }

  /** A measure every settling step decreases. */
  function Work(s: State): nat {
    if s.phase == Starting then 8
    else
      (if s.seen != s.newest then 13 else 0) +
      (if s.inFlight < s.current then 10 else 0) +
      (match s.phase
       case ChangeTaken => 2
       case Claiming => 1
       case Announcing => 7
       case _ => 0) +
      (if s.flow.inFlight == None then 0
       else match s.phase
            case AckTaken(_) => 2
            case AckCleared(_) => 1
            case Sending => if s.flow.ackQueued then 5 else 6
            case _ => if s.flow.ackQueued then 3 else 4)
  }

  lemma AckStepDecreases(s: State, step: Step)
    requires Invariant(s) && s.registered && Settling(s, step)
    requires step.ClientAck? || step == TakeCommand || step == ClearAck || step == ResolveAck
    ensures Apply(s, step).registered && Apply(s, step).newest == s.newest
    ensures Work(Apply(s, step)) < Work(s) && (s.phase != Stopped ==> Apply(s, step).phase != Stopped)
    ensures SendsLeft(Apply(s, step)) + |Apply(s, step).delivered| <= SendsLeft(s) + |s.delivered|
  {
    match step
    case TakeCommand =>
      assert s.commands == [Ack(s.inFlight)];
    case ResolveAck =>
      assert s.inFlight == s.phase.revision;
    case _ =>
  }

  lemma TaskStepDecreases(s: State, step: Step)
    requires Invariant(s) && s.registered && Settling(s, step)
    requires !(step.ClientAck? || step == TakeCommand || step == ClearAck || step == ResolveAck)
    ensures Apply(s, step).registered && Apply(s, step).newest == s.newest
    ensures Work(Apply(s, step)) < Work(s) && (s.phase != Stopped ==> Apply(s, step).phase != Stopped)
    ensures SendsLeft(Apply(s, step)) + |Apply(s, step).delivered| <= SendsLeft(s) + |s.delivered|
  {
  }

  lemma SettlingStepDecreases(s: State, step: Step)
    requires Invariant(s) && s.registered && Settling(s, step)
    ensures Invariant(Apply(s, step)) && Apply(s, step).registered && Apply(s, step).newest == s.newest
    ensures Work(Apply(s, step)) < Work(s) && (s.phase != Stopped ==> Apply(s, step).phase != Stopped)
    ensures SendsLeft(Apply(s, step)) + |Apply(s, step).delivered| <= SendsLeft(s) + |s.delivered|
  {
    StepKeepsInvariant(s, step);
    if step.ClientAck? || step == TakeCommand || step == ClearAck || step == ResolveAck {
      AckStepDecreases(s, step);
    } else {
      TaskStepDecreases(s, step);
    }
  }

  /**
   * Once publishing stops, every run settles: it has at most 30 steps, of which at most two deliver, however
   * acknowledgements and change notices interleave.
   */
  lemma {:induction false} SettlingIsBounded(s: State, steps: seq<Step>)
    requires Invariant(s) && s.registered && Runs(s, steps) && SettlingRun(s, steps)
    ensures |steps| <= Work(s) <= 30 && SendsLeft(s) <= 2
    ensures |After(s, steps).delivered| <= |s.delivered| + SendsLeft(s)
    ensures Invariant(After(s, steps)) && After(s, steps).registered
    ensures s.phase != Stopped ==> After(s, steps).phase != Stopped
    decreases |steps|
  {
    if steps != [] {
      SettlingStepDecreases(s, steps[0]);
      SettlingIsBounded(Apply(s, steps[0]), steps[1..]);
    }
  }

  /** A live subscription that has not settled always has a settling step: the task's own, or the client's ack. */
  lemma SettlingProgress(s: State) returns (step: Step)
    requires Invariant(s) && s.registered && s.phase != Stopped && !Quiescent(s)
    ensures Settling(s, step)
    ensures step.ClientAck? ==> s.delivered != [] && step.revision == s.delivered[|s.delivered| - 1]
  {
    match s.phase
    case Starting => step := Borrow;
    case Announcing => step := Announce;
    case Sending => step := Send(true);
    case AckTaken(_) => step := ClearAck;
    case AckCleared(_) => step := ResolveAck;
    case ChangeTaken => step := ConsultFlow;
    case Claiming => step := Claim;
    case Selecting =>
      if s.commands != [] {
        step := TakeCommand;
      } else if s.seen != s.newest {
        step := TakeChange;
      } else {
        step := ClientAck(s.inFlight);
        HandshakeFacts(s, s.inFlight);
        assert Apply(s, step).commands == [Ack(s.inFlight)];
      }
  }

  /** When everything has settled the client holds the publisher's newest snapshot. */
  lemma QuiescentHoldsNewest(s: State)
    requires Invariant(s) && Quiescent(s)
    ensures s.delivered != [] && s.delivered[|s.delivered| - 1] == s.newest
  {
  }

  lemma SettlingCons(s: State, step: Step, rest: seq<Step>)
    requires Settling(s, step) && Runs(Apply(s, step), rest) && SettlingRun(Apply(s, step), rest)
    ensures Runs(s, [step] + rest) && SettlingRun(s, [step] + rest)
    ensures After(s, [step] + rest) == After(Apply(s, step), rest)
  {
    assert ([step] + rest)[1..] == rest;
  }

  lemma NextSettlingStep(s: State) returns (step: Step)
    requires Invariant(s) && s.registered && s.phase != Stopped && !Quiescent(s)
    ensures Settling(s, step)
    ensures var t := Apply(s, step);
      Invariant(t) && t.registered && t.phase != Stopped && t.newest == s.newest && Work(t) < Work(s)
  {
    step := SettlingProgress(s);
    SettlingStepDecreases(s, step);
  }

  /**
   * From any live state of the invariant, taking settling steps as long as there is one ends with the client holding
   * the value that was newest when publishing stopped.
   */
  lemma {:induction false} SettlesToNewest(s: State) returns (steps: seq<Step>)
    requires Invariant(s) && s.registered && s.phase != Stopped
    ensures Runs(s, steps) && SettlingRun(s, steps)
    ensures var t := After(s, steps);
      Quiescent(t) && t.newest == s.newest && t.delivered != [] && t.delivered[|t.delivered| - 1] == s.newest
    decreases Work(s)
  {
    if Quiescent(s) {
      steps := [];
    } else {
      var step := NextSettlingStep(s);
      var rest := SettlesToNewest(Apply(s, step));
      SettlingCons(s, step, rest);
      steps := [step] + rest;
    }
  }

  // ---------------------------------------------------------------------------------------------
  // Every run, whatever the client acknowledges
  // ---------------------------------------------------------------------------------------------

  /** The history of queued acknowledgements that the rest of a regular state implies. */
  ghost function ImpliedAcked(s: State): seq<nat> {
    if s.phase == Starting || s.phase == Announcing then []
    else if s.phase == Stopped || s.flow.inFlight == None || s.flow.ackQueued || s.phase.AckCleared? then s.claimed
    else ButLast(s.claimed)
  }

  ghost function Mended(s: State): State {
    s.(acked := ImpliedAcked(s))
  }

  /** The invariant but for the history of queued acknowledgements, which no step reads. */
  ghost predicate Regular(s: State) {
    Invariant(Mended(s))
  }

  ghost function SurplusAck(s: State): seq<Command> {
    if s.phase.AckTaken? || (s.phase.AckCleared? && !s.flow.ackQueued) then [] else [Ack(s.inFlight)]
  }

  /**
   * A second acknowledgement of the last delivery is queued, or being handled, and nothing was put in flight since:
   * the first one has been handled, but for the end of it right after the duplicate.
   */
  ghost predicate Surplus(s: State) {
    && StrictlyIncreasing(s.claimed) && s.claimed != [] && s.inFlight == s.claimed[|s.claimed| - 1]
    && s.delivered == s.claimed && s.seen <= s.newest && s.current == s.seen && s.inFlight <= s.current
    && (s.commands == SurplusAck(s) || (!s.registered && s.commands == SurplusAck(s) + [Stop]))
    && match s.phase
       case AckCleared(revision) =>
         && revision == s.inFlight
         && (s.flow == Flow(Some(revision), true) || (s.flow == Flow(None, false) && s.current == revision))
       case AckTaken(revision) => revision == s.inFlight == s.current && s.flow == Flow(None, true)
       case Selecting => s.current == s.inFlight && s.flow == Flow(None, true)
       case ChangeTaken => s.current > s.inFlight && s.flow == Flow(None, true)
       case Claiming => s.current > s.inFlight && s.flow == Flow(None, true)
       case _ => false
  }

  /** A revision is in flight with the flag up, but no acknowledgement of it is in the channel, and none gets in. */
  ghost predicate Doomed(s: State) {
    && (s.phase == Sending || s.phase == Selecting || s.phase == ChangeTaken)
    && s.flow == Flow(Some(s.inFlight), true) && Ack(s.inFlight) !in s.commands
  }

  ghost predicate Tracked(s: State) {
    s.phase == Stopped || Regular(s) || Surplus(s) || Doomed(s)
  }

  lemma InvariantIsRegular(s: State)
    requires Invariant(s)
    ensures Regular(s)
  {
    assert s.phase != Stopped ==> Mended(s) == s;
  }

  lemma RegularStep(s: State, step: Step)
    requires Regular(s) && Enabled(s, step) && !WindowDuplicate(s, step)
    ensures Regular(Apply(s, step))
  {
    var m := Mended(s);
    StepKeepsInvariant(m, step);
    InvariantIsRegular(Apply(m, step));
    StepIgnoresAcked(m, s, step);
    MendedIgnoresAcked(Apply(m, step), Apply(s, step));
  }

  lemma MendedIgnoresAcked(s: State, t: State)
    requires s.(acked := []) == t.(acked := [])
    ensures Mended(s) == Mended(t)
  {
    assert s.phase == t.phase && s.flow == t.flow && s.claimed == t.claimed;
    assert s.(acked := ImpliedAcked(s)) == s.(acked := []).(acked := ImpliedAcked(s));
  }

  /** No step reads the history of acknowledgements. */
  lemma StepIgnoresAcked(s: State, t: State, step: Step)
    requires s.(acked := []) == t.(acked := []) && Enabled(s, step)
    ensures Enabled(t, step) && Apply(s, step).(acked := []) == Apply(t, step).(acked := [])
  {
    assert t == s.(acked := t.acked) && s.flow == t.flow && s.commands == t.commands && s.phase == t.phase;
  }

  lemma DuplicateMakesSurplus(s: State, step: Step)
    requires Regular(s) && Enabled(s, step) && WindowDuplicate(s, step)
    ensures Surplus(Apply(s, step))
  {
  }

  lemma SurplusStep(s: State, step: Step)
    requires Surplus(s) && Enabled(s, step)
    ensures Tracked(Apply(s, step))
    ensures Doomed(Apply(s, step))
        <==> s.flow.ackQueued && (step == Claim || (step == ResolveAck && s.current > s.inFlight))
  {
    if step == ResolveAck {
      SurplusResolves(s);
    } else if step == TakeCommand {
      SurplusTaken(s);
    } else {
      SurplusElse(s, step);
    }
  }

  lemma SurplusTaken(s: State)
    requires Surplus(s) && s.phase == Selecting && s.commands != []
    ensures Surplus(Apply(s, TakeCommand)) && !Doomed(Apply(s, TakeCommand))
  {
    assert s.commands[1..] == [] || s.commands[1..] == [Stop];
  }

  lemma SurplusElse(s: State, step: Step)
    requires Surplus(s) && Enabled(s, step) && step != ResolveAck && step != TakeCommand
    ensures Tracked(Apply(s, step)) && (Doomed(Apply(s, step)) <==> step == Claim)
  {
    if step == Claim {
      assert Ack(s.current) !in s.commands;
    } else {
      SurplusStays(s, step);
    }
  }

  lemma SurplusStays(s: State, step: Step)
    requires Surplus(s) && Enabled(s, step) && step != ResolveAck && step != TakeCommand && step != Claim
    ensures Surplus(Apply(s, step)) || Apply(s, step).phase == Stopped
    ensures !Doomed(Apply(s, step))
  {
  }

  lemma SurplusResolves(s: State)
    requires Surplus(s) && s.phase.AckCleared?
    ensures Surplus(Apply(s, ResolveAck)) || Regular(Apply(s, ResolveAck)) || Doomed(Apply(s, ResolveAck))
    ensures Doomed(Apply(s, ResolveAck)) <==> s.flow.ackQueued && s.current > s.inFlight
  {
    var t := Apply(s, ResolveAck);
    if s.flow == Flow(None, false) {
      assert Mended(t).acked == t.claimed;
    }
  }

  lemma DoomedStep(s: State, step: Step)
    requires Doomed(s) && Enabled(s, step)
    ensures Doomed(Apply(s, step)) || Apply(s, step).phase == Stopped
    ensures Apply(s, step).inFlight == s.inFlight
    ensures Apply(s, step).delivered == if step == Send(true) then s.delivered + [s.current] else s.delivered
    ensures s.phase != Sending ==> Apply(s, step).phase != Sending
  {
    if step == TakeCommand {
      assert s.commands[0] in s.commands;
      assert forall c :: c in s.commands[1..] ==> c in s.commands;
    }
  }

  lemma StepIsTracked(s: State, step: Step)
    requires Tracked(s) && Enabled(s, step)
    ensures Tracked(Apply(s, step))
  {
    if Doomed(s) {
      DoomedStep(s, step);
    } else if Surplus(s) {
      SurplusStep(s, step);
    } else if Regular(s) {
      if WindowDuplicate(s, step) {
        DuplicateMakesSurplus(s, step);
      } else {
        RegularStep(s, step);
      }
    }
  }

  lemma {:induction false} TrackedRun(s: State, steps: seq<Step>)
    requires Tracked(s) && Runs(s, steps)
    ensures Tracked(After(s, steps))
    decreases |steps|
  {
    if steps != [] {
      StepIsTracked(s, steps[0]);
      TrackedRun(Apply(s, steps[0]), steps[1..]);
    }
  }

  /** With no assumption about the client at all, every reachable state is regular, has a surplus, or is doomed. */
  lemma EveryRunIsTracked(revision: nat, steps: seq<Step>)
    requires Runs(Init(revision), steps)
    ensures Tracked(After(Init(revision), steps))
  {
    InitInvariant(revision);
    InvariantIsRegular(Init(revision));
    TrackedRun(Init(revision), steps);
  }

  // ---------------------------------------------------------------------------------------------
  // When a duplicate inside the window strands the subscription
  // ---------------------------------------------------------------------------------------------

  /** Doomed, or about to put a newer revision in flight with the flag up. */
  ghost predicate Hopeless(s: State) {
    Doomed(s) || (Surplus(s) && s.current > s.inFlight)
  }

  /** Exactly a duplicate that finds a newer value current, or a newer value taken while the surplus is queued. */
  lemma HopelessStepIff(s: State, step: Step)
    requires Tracked(s) && s.phase != Stopped && !Hopeless(s) && Enabled(s, step)
    ensures Hopeless(Apply(s, step)) <==>
              || (Regular(s) && WindowDuplicate(s, step) && s.current > s.phase.revision)
              || (Surplus(s) && step == TakeChange)
  {
    if Surplus(s) {
      SurplusStep(s, step);
    } else if WindowDuplicate(s, step) {
      DuplicateMakesSurplus(s, step);
    } else {
      RegularStep(s, step);
      RegularIsNotHopeless(Apply(s, step));
    }
  }

  lemma RegularIsNotHopeless(s: State)
    requires Regular(s)
    ensures !Hopeless(s) && !Surplus(s)
  {
  }

  lemma HopelessStep(s: State, step: Step)
    requires Hopeless(s) && Enabled(s, step)
    ensures Hopeless(Apply(s, step)) || Apply(s, step).phase == Stopped
    ensures |Apply(s, step).delivered| + SendsDue(Apply(s, step)) <= |s.delivered| + SendsDue(s)
    ensures s.delivered <= Apply(s, step).delivered
  {
    if Doomed(s) {
      DoomedStep(s, step);
    } else {
      SurplusStep(s, step);
    }
  }

  /** The sends a hopeless subscription can still make. */
  function SendsDue(s: State): nat {
    match s.phase
    case Sending => 1
    case AckCleared(_) => 1
    case ChangeTaken => if s.flow.inFlight == None then 1 else 0
    case Claiming => 1
    case _ => 0
  }

  /** It delivers at most one more value, ever, and never settles, whatever the publisher and the client do. */
  lemma {:induction false} HopelessForever(s: State, steps: seq<Step>)
    requires Hopeless(s) && Runs(s, steps)
    ensures Hopeless(After(s, steps)) || After(s, steps).phase == Stopped
    ensures !Quiescent(After(s, steps))
    ensures |After(s, steps).delivered| <= |s.delivered| + SendsDue(s) <= |s.delivered| + 1
    decreases |steps|
  {
    if steps != [] {
      HopelessStep(s, steps[0]);
      if Apply(s, steps[0]).phase == Stopped {
        StoppedForever(Apply(s, steps[0]), steps[1..]);
      } else {
        HopelessForever(Apply(s, steps[0]), steps[1..]);
      }
    }
  }

  lemma {:induction false} StoppedForever(s: State, steps: seq<Step>)
    requires s.phase == Stopped && Runs(s, steps)
    ensures After(s, steps).phase == Stopped && After(s, steps).delivered == s.delivered
    decreases |steps|
  {
    if steps != [] {
      StoppedForever(Apply(s, steps[0]), steps[1..]);
    }
  }

  /** Every other live subscription can still be brought to the newest value: a surplus is handled and forgotten. */
  lemma OthersSettle(s: State) returns (steps: seq<Step>)
    requires Tracked(s) && s.registered && s.phase != Stopped && !Hopeless(s)
    ensures Runs(s, steps)
    ensures var t := After(s, steps);
      Quiescent(t) && t.delivered != [] && t.delivered[|t.delivered| - 1] == t.newest == s.newest
  {
    var first := if Surplus(s) then HandleSurplus(s) else [];
    HandlingEnds(s, first);
    var t := After(s, first);
    var rest := SettlesToNewest(Mended(t));
    AckedIsNotRead(Mended(t), t, rest);
    RunsConcat(s, first, rest);
    steps := first + rest;
  }

  function HandleSurplus(s: State): seq<Step> {
    match s.phase
    case AckCleared(_) => if s.flow.ackQueued then [ResolveAck, TakeCommand, ClearAck, ResolveAck] else [ResolveAck]
    case AckTaken(_) => [ClearAck, ResolveAck]
    case _ => [TakeCommand, ClearAck, ResolveAck]
  }

  lemma HandlingEnds(s: State, steps: seq<Step>)
    requires s.registered && s.phase != Stopped && Tracked(s) && !Hopeless(s)
    requires steps == if Surplus(s) then HandleSurplus(s) else []
    ensures Runs(s, steps)
    ensures var t := After(s, steps); Regular(t) && t.registered && t.phase != Stopped && t.newest == s.newest
  {
    if Surplus(s) {
      match s.phase
      case AckCleared(_) =>
        SurplusResolves(s);
        var t := Apply(s, ResolveAck);
        if s.flow.ackQueued {
          SelectingHandled(t);
          assert steps[1..] == [TakeCommand, ClearAck, ResolveAck];
        } else {
          assert steps[1..] == [];
        }
      case AckTaken(_) => TakenHandled(s);
      case _ => SelectingHandled(s);
    }
  }

  lemma SelectingHandled(s: State)
    requires Surplus(s) && s.phase == Selecting && s.registered
    ensures var steps := [TakeCommand, ClearAck, ResolveAck];
      && Runs(s, steps)
      && var t := After(s, steps); Regular(t) && t.registered && t.phase != Stopped && t.newest == s.newest
  {
    var t := Apply(s, TakeCommand);
    assert s.commands == [Ack(s.inFlight)] && s.commands[1..] == [];
    assert [TakeCommand, ClearAck, ResolveAck][1..] == [ClearAck, ResolveAck];
    TakenHandled(t);
  }

  lemma TakenHandled(s: State)
    requires Surplus(s) && s.phase.AckTaken? && s.registered
    ensures var steps := [ClearAck, ResolveAck];
      && Runs(s, steps)
      && var t := After(s, steps); Regular(t) && t.registered && t.phase != Stopped && t.newest == s.newest
  {
    var cleared := Apply(s, ClearAck);
    var t := Apply(cleared, ResolveAck);
    assert Surplus(cleared);
    SurplusResolves(cleared);
    assert [ClearAck, ResolveAck][1..] == [ResolveAck] && [ResolveAck][1..] == [];
    assert After(cleared, [ResolveAck]) == After(t, []);
  }

  lemma {:induction false} AckedIsNotRead(s: State, t: State, steps: seq<Step>)
    requires Runs(s, steps) && s.(acked := []) == t.(acked := [])
    ensures Runs(t, steps) && After(s, steps).(acked := []) == After(t, steps).(acked := [])
    decreases |steps|
  {
    if steps != [] {
      StepIgnoresAcked(s, t, steps[0]);
      AckedIsNotRead(Apply(s, steps[0]), Apply(t, steps[0]), steps[1..]);
    }
  }

  lemma {:induction false} RunsConcat(s: State, steps: seq<Step>, more: seq<Step>)
    requires Runs(s, steps) && Runs(After(s, steps), more)
    ensures Runs(s, steps + more) && After(s, steps + more) == After(After(s, steps), more)
    decreases |steps|
  {
    if steps == [] {
      assert steps + more == more;
    } else {
      assert (steps + more)[1..] == steps[1..] + more;
      RunsConcat(Apply(s, steps[0]), steps[1..], more);
    }
  }

  /** The flag is up, but the channel holds nothing that could lower it. */
  predicate Stranded(s: State) {
    && (s.phase == Selecting || s.phase == ChangeTaken || s.phase == Stopped)
    && s.flow == Flow(Some(s.inFlight), true)
    && forall i :: 0 <= i < |s.commands| ==> s.commands[i] == Stop
  }

  /** A stranded subscription never delivers again, whatever the publisher and the client do. */
  lemma {:induction false} StrandedForever(s: State, steps: seq<Step>)
    requires Stranded(s) && Runs(s, steps)
    ensures Stranded(After(s, steps)) && After(s, steps).delivered == s.delivered
    decreases |steps|
  {
    if steps != [] {
      StrandedForever(Apply(s, steps[0]), steps[1..]);
    }
  }

  /**
   * A run from the start that strands the subscription with revision 2 delivered: the only irregular step is
   * a duplicate of the acknowledgement of revision 1, between the two locks that handle the first one.
   */
  lemma DuplicateInWindowStrands() returns (steps: seq<Step>)
    ensures Runs(Init(1), steps) && Stranded(After(Init(1), steps))
    ensures After(Init(1), steps).delivered == [1, 2] && After(Init(1), steps).phase == Selecting
  {
    steps := FirstAckBeingHandled();
    var s := State(2, true, 2, 2, 1, Flow(Some(1), false), [], true, AckCleared(1), [1], [1], [1]);
    steps, s := Extend(steps, s, ClientAck(1));
    steps, s := Extend(steps, s, ResolveAck);
    steps, s := Extend(steps, s, Send(true));
    steps, s := Extend(steps, s, TakeCommand);
  }

  /** Revision 2 is published while revision 1 is in flight, and the task stands between its two locks. */
  lemma FirstAckBeingHandled() returns (steps: seq<Step>)
    ensures Runs(Init(1), steps)
    ensures After(Init(1), steps)
        == State(2, true, 2, 2, 1, Flow(Some(1), false), [], true, AckCleared(1), [1], [1], [1])
  {
    steps := FirstDelivered();
    var s := State(1, true, 1, 1, 1, Flow(Some(1), false), [], true, Selecting, [1], [1], []);
    steps, s := Extend(steps, s, Publish(2));
    steps, s := Extend(steps, s, TakeChange);
    steps, s := Extend(steps, s, ConsultFlow);
    steps, s := Extend(steps, s, ClientAck(1));
    steps, s := Extend(steps, s, TakeCommand);
    steps, s := Extend(steps, s, ClearAck);
  }

  lemma FirstDelivered() returns (steps: seq<Step>)
    ensures Runs(Init(1), steps)
    ensures After(Init(1), steps) == State(1, true, 1, 1, 1, Flow(Some(1), false), [], true, Selecting, [1], [1], [])
  {
    steps := [];
    var s := Init(1);
    steps, s := Extend(steps, s, Borrow);
    steps, s := Extend(steps, s, Announce);
    steps, s := Extend(steps, s, Send(true));
  }

  lemma Extend(steps: seq<Step>, s: State, step: Step) returns (steps': seq<Step>, s': State)
    requires Runs(Init(1), steps) && After(Init(1), steps) == s && Enabled(s, step)
    ensures steps' == steps + [step] && s' == Apply(s, step)
    ensures Runs(Init(1), steps') && After(Init(1), steps') == s'
  {
    steps', s' := steps + [step], Apply(s, step);
    RunsAppend(Init(1), steps, step);
  }

  lemma {:induction false} RunsAppend(s: State, steps: seq<Step>, step: Step)
    requires Runs(s, steps) && Enabled(After(s, steps), step)
    ensures Runs(s, steps + [step]) && After(s, steps + [step]) == Apply(After(s, steps), step)
    decreases |steps|
  {
    if steps == [] {
      assert ([step])[1..] == [];
      assert steps + [step] == [step];
      assert Runs(Apply(s, step), []);
    } else {
      assert (steps + [step])[1..] == steps[1..] + [step];
      RunsAppend(Apply(s, steps[0]), steps[1..], step);
    }
  }
}
