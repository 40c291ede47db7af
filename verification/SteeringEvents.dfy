// What the client is sent: every event of a run once and in order, and one answer
// for each command and each steered prompt.
module SteeringEvents {
  import opened Prelude
  import opened Notice
  import opened ClientTurn
  import opened SteeringModel
  import opened SteeringLedger
  import opened SteeringAgreement
  import opened SteeringSteps

  // ---- the channel to the client ----

  // The frame a step lets the client read.
  function ReadBy(s: System, step: Step): seq<ServerFrame>
    requires Enabled(s, step)
  {
    if step.ClientReceive? then [s.s2c[0]] else []
  }

  // The frames a step puts behind those in flight.
  function SentBy(s: System, step: Step): seq<ServerFrame>
    requires Enabled(s, step)
  {
    var t := Next(s, step);
    if step.ClientReceive? || |t.s2c| < |s.s2c| then [] else t.s2c[|s.s2c|..]
  }

  function ReadFrames(s: System, steps: seq<Step>): seq<ServerFrame>
    requires Possible(s, steps)
    decreases |steps|
  {
    if steps == [] then [] else ReadBy(s, steps[0]) + ReadFrames(Next(s, steps[0]), steps[1..])
  }

  function SentFrames(s: System, steps: seq<Step>): seq<ServerFrame>
    requires Possible(s, steps)
    decreases |steps|
  {
    if steps == [] then [] else SentBy(s, steps[0]) + SentFrames(Next(s, steps[0]), steps[1..])
  }

  lemma BridgeSendsBehind(s: System)
    ensures s.mode.Submitting? ==> s.s2c <= DoBridgePush(s).s2c
    ensures s.mode.Starting? ==> s.s2c <= DoBridgeStart(s).s2c
    ensures s.run.events != [] ==> s.s2c <= DoBridgePoll(s).s2c
    ensures s.run.events != [] && s.mode.Reconciling? ==> s.s2c <= DoBridgeReconcile(s).s2c
  {
  }

  // Whoever moves but the client only sends.
  lemma OthersOnlySend(s: System, step: Step)
    requires Enabled(s, step) && !step.ClientReceive?
    ensures s.s2c <= Next(s, step).s2c
  {
    BridgeSendsBehind(s);
  }

  lemma StepIsFifo(s: System, step: Step)
    requires Enabled(s, step)
    ensures s.s2c + SentBy(s, step) == ReadBy(s, step) + Next(s, step).s2c
  {
    if step.ClientReceive? {
      assert s.s2c == [s.s2c[0]] + s.s2c[1..] && DoClientReceive(s).s2c == s.s2c[1..];
      assert s.s2c + [] == s.s2c;
    } else {
      OthersOnlySend(s, step);
    }
  }

  // What was in flight and what is sent are read in that order, or still in flight.
  lemma {:induction false} ChannelIsFifo(s: System, steps: seq<Step>)
    requires Possible(s, steps)
    ensures s.s2c + SentFrames(s, steps) == ReadFrames(s, steps) + After(s, steps).s2c
    decreases |steps|
  {
    if steps != [] {
      var next := Next(s, steps[0]);
      StepIsFifo(s, steps[0]);
      ChannelIsFifo(next, steps[1..]);
      Associative(s.s2c, SentBy(s, steps[0]), SentFrames(next, steps[1..]));
      Associative(ReadBy(s, steps[0]), next.s2c, SentFrames(next, steps[1..]));
      Associative(ReadBy(s, steps[0]), ReadFrames(next, steps[1..]), After(next, steps[1..]).s2c);
    }
  }

  // What else the bridge has to tell is sent when it is told, and at no other time.
  lemma OnlyChatterIsChatter(s: System, step: Step)
    requires Enabled(s, step)
    ensures Chatter in SentBy(s, step) <==> step.BridgeChatter?
    ensures step.BridgeChatter? ==> SentBy(s, step) == [Chatter] && Next(s, step) == s.(s2c := s.s2c + [Chatter])
  {
    if step.BridgePoll? || step.BridgeReconcile? {
      EventsAreNoChatter(s, step);
    }
  }

  lemma EventsAreNoChatter(s: System, step: Step)
    requires Enabled(s, step) && (step.BridgePoll? || step.BridgeReconcile?)
    ensures Chatter !in SentBy(s, step)
  {
  }

  // ---- events ----

  function EventOf(f: ServerFrame): seq<Event>
  {
    if f.Forward? then [f.event] else []
  }

  // The events forwarded by some frames.
  function Forwarded(frames: seq<ServerFrame>): seq<Event>
  {
    FlatMap(frames, EventOf)
  }

  // What a step adds to the events of the run in flight.
  function EmittedBy(step: Step): seq<Event>
  {
    match step
    case KernelEmit(e) => [e]
    case KernelFinish => [Final]
    case _ => []
  }

  function Emitted(steps: seq<Step>): seq<Event>
    decreases |steps|
  {
    if steps == [] then [] else EmittedBy(steps[0]) + Emitted(steps[1..])
  }

  // A `final` is the last event of its run, and nothing is left of a run when no
  // run is in flight.
  predicate FinalIsLast(s: System)
  {
    && (!s.run.phase.Done? ==> Final !in s.run.events)
    && (forall i | 0 <= i < |s.run.events| - 1 :: s.run.events[i] != Final)
    && (!Live(s.mode) ==> s.run.events == [])
  }

  lemma KernelKeepsFinalLast(s: System, step: Step)
    requires FinalIsLast(s) && Enabled(s, step)
    requires step.KernelDrain? || step.KernelEmit? || step.KernelStop? || step.KernelFinish?
    ensures FinalIsLast(Next(s, step))
  {
  }

  lemma EventsKeepFinalLast(s: System, step: Step)
    requires Ledger(s) && FinalIsLast(s) && Enabled(s, step)
    requires step.BridgePoll? || step.BridgeReconcile? || step.BridgeStreamEnd?
    ensures FinalIsLast(Next(s, step))
  {
    var events := s.run.events;
    assert forall i | 0 <= i < |events| - 1 :: events[1..][i] == events[i + 1];
  }

  lemma StepKeepsFinalLast(s: System, step: Step)
    requires Ledger(s) && FinalIsLast(s) && Enabled(s, step)
    ensures FinalIsLast(Next(s, step))
  {
    if step.KernelDrain? || step.KernelEmit? || step.KernelStop? || step.KernelFinish? {
      KernelKeepsFinalLast(s, step);
    } else if step.BridgePoll? || step.BridgeReconcile? || step.BridgeStreamEnd? {
      EventsKeepFinalLast(s, step);
    }
  }

  // An event leaves the buffer as the last frame sent.
  lemma TakenIsForwarded(s: System, step: Step)
    requires Ledger(s) && Enabled(s, step) && s.run.events != []
    requires step.BridgePoll? || step.BridgeReconcile?
    ensures
      var t := Next(s, step);
      && (t.run.events == s.run.events || t.run.events == s.run.events[1..])
      && (t.run.events != s.run.events ==> t.s2c != s.s2c && t.s2c[|t.s2c| - 1] == Forward(s.run.events[0]))
  {
  }

  lemma PollPassesEvents(s: System)
    requires FinalIsLast(s) && Enabled(s, BridgePoll)
    ensures s.run.events == Forwarded(SentBy(s, BridgePoll)) + DoBridgePoll(s).run.events
  {
    var e, sent := s.run.events[0], SentBy(s, BridgePoll);
    assert s.run.events == [e] + s.run.events[1..];
    if e.Final? || s.unconsumed == [] {
      assert sent == [Forward(e)];
      FlatMapOne(Forward(e), EventOf);
    } else {
      assert sent == [];
    }
  }

  lemma ReconcilePassesEvents(s: System)
    requires Enabled(s, BridgeReconcile)
    ensures s.run.events == Forwarded(SentBy(s, BridgeReconcile)) + DoBridgeReconcile(s).run.events
  {
    var e, sent := s.run.events[0], SentBy(s, BridgeReconcile);
    var consumed := Consumed(s.unconsumed, s.mode.pendingCount);
    assert s.run.events == [e] + s.run.events[1..];
    if consumed == 0 {
      assert sent == [Forward(e)];
      FlatMapOne(Forward(e), EventOf);
    } else {
      var notice := Text(SteeringNotice(APPLIED, consumed));
      assert sent == [notice, Forward(e)];
      FlatMapTwo(notice, Forward(e), EventOf);
    }
  }

  // The other steps of the bridge send at most one frame, and no event.
  lemma OthersSend(s: System, step: Step)
    requires Enabled(s, step) && !step.BridgePoll? && !step.BridgeReconcile?
    ensures |SentBy(s, step)| <= 1 && forall f <- SentBy(s, step) :: !f.Forward?
  {
  }

  lemma OthersPassEvents(s: System, step: Step)
    requires Ledger(s) && FinalIsLast(s) && Enabled(s, step) && !step.BridgePoll? && !step.BridgeReconcile?
    ensures s.run.events + EmittedBy(step) == Next(s, step).run.events
    ensures Forwarded(SentBy(s, step)) == []
  {
    var sent := SentBy(s, step);
    OthersSend(s, step);
    if sent != [] {
      assert sent == [sent[0]];
      FlatMapOne(sent[0], EventOf);
    }
  }

  // No step loses, repeats or reorders an event of the run.
  lemma StepPassesEvents(s: System, step: Step)
    requires Ledger(s) && FinalIsLast(s) && Enabled(s, step)
    ensures s.run.events + EmittedBy(step) == Forwarded(SentBy(s, step)) + Next(s, step).run.events
  {
    match step
    case BridgePoll => PollPassesEvents(s);
    case BridgeReconcile => ReconcilePassesEvents(s);
    case _ => OthersPassEvents(s, step);
  }

  lemma {:induction false} RunPassesEvents(s: System, steps: seq<Step>)
    requires Ledger(s) && FinalIsLast(s) && Possible(s, steps)
    ensures s.run.events + Emitted(steps) == Forwarded(SentFrames(s, steps)) + After(s, steps).run.events
    decreases |steps|
  {
    if steps != [] {
      var next := Next(s, steps[0]);
      StepPassesEvents(s, steps[0]);
      StepKeepsLedger(s, steps[0]);
      StepKeepsFinalLast(s, steps[0]);
      RunPassesEvents(next, steps[1..]);
      FlatMapConcat(SentBy(s, steps[0]), SentFrames(next, steps[1..]), EventOf);
      Associative(s.run.events, EmittedBy(steps[0]), Emitted(steps[1..]));
      Associative(Forwarded(SentBy(s, steps[0])), next.run.events, Emitted(steps[1..]));
      Associative(Forwarded(SentBy(s, steps[0])), Forwarded(SentFrames(next, steps[1..])), After(next, steps[1..]).run.events);
    }
  }

  lemma StartHasNoEvents()
    ensures Ledger(INITIAL) && FinalIsLast(INITIAL)
    ensures INITIAL.run.events == [] && INITIAL.s2c == [] && INITIAL.c2s == [] && INITIAL.received == []
  {
  }

  // In every run the events emitted are, in order and once each, those the client
  // has read, then those under way to it, then those the bridge has not taken yet.
  lemma EveryEventIsPassedOn(steps: seq<Step>)
    requires Possible(INITIAL, steps)
    ensures
      var s := After(INITIAL, steps);
      Emitted(steps) == Forwarded(ReadFrames(INITIAL, steps)) + Forwarded(s.s2c) + s.run.events
  {
    StartHasNoEvents();
    RunPassesEvents(INITIAL, steps);
    EventsFromStart(INITIAL, steps);
  }

  lemma EventsFromStart(start: System, steps: seq<Step>)
    requires start.s2c == [] && start.run.events == [] && Possible(start, steps)
    requires start.run.events + Emitted(steps) == Forwarded(SentFrames(start, steps)) + After(start, steps).run.events
    ensures
      var s := After(start, steps);
      Emitted(steps) == Forwarded(ReadFrames(start, steps)) + Forwarded(s.s2c) + s.run.events
  {
    ChannelIsFifo(start, steps);
    ForwardedParts(start.s2c, SentFrames(start, steps), ReadFrames(start, steps), After(start, steps).s2c);
    NothingBefore(start.run.events, Emitted(steps));
  }

  lemma NothingBefore(before: seq<Event>, events: seq<Event>)
    requires before == []
    ensures before + events == events
  {
  }

  lemma ForwardedParts(before: seq<ServerFrame>, sent: seq<ServerFrame>, read: seq<ServerFrame>, left: seq<ServerFrame>)
    requires before == [] && before + sent == read + left
    ensures Forwarded(sent) == Forwarded(read) + Forwarded(left)
  {
    assert before + sent == sent;
    FlatMapConcat(read, left, EventOf);
  }

  // ---- answers ----

  // A text that is no counted notice.
  function SaidBy(f: ServerFrame): seq<string>
  {
    if f.Text? && AppliedCount(f) == [] then [f.notice] else []
  }

  function Said(frames: seq<ServerFrame>): seq<string>
  {
    FlatMap(frames, SaidBy)
  }

  // A command is answered by its reply, a prompt taken into a running turn by a
  // queued-notice once it is mirrored.
  function AnswerBy(s: System, step: Step): seq<string>
    requires Enabled(s, step)
  {
    match step
    case BridgeReceive(reply) => if IsCommand(s.c2s[0]) then [reply] else []
    case BridgePush => [QUEUED]
    case _ => []
  }

  function Answers(s: System, steps: seq<Step>): seq<string>
    requires Possible(s, steps)
    decreases |steps|
  {
    if steps == [] then [] else AnswerBy(s, steps[0]) + Answers(Next(s, steps[0]), steps[1..])
  }

  lemma EventsSayNothing(s: System, step: Step)
    requires Ledger(s) && Enabled(s, step) && (step.BridgePoll? || step.BridgeReconcile?)
    ensures Said(SentBy(s, step)) == []
  {
    var e, sent := s.run.events[0], SentBy(s, step);
    if sent == [Forward(e)] {
      FlatMapOne(Forward(e), SaidBy);
    } else if sent != [] {
      var consumed := Consumed(s.unconsumed, s.mode.pendingCount);
      var notice := Text(SteeringNotice(APPLIED, consumed));
      assert sent == [notice, Forward(e)];
      AppliedNoticeCounts(consumed);
      FlatMapTwo(notice, Forward(e), SaidBy);
    }
  }

  lemma StartSaysNothing(s: System)
    requires Ledger(s) && s.mode.Starting?
    ensures Said(SentBy(s, BridgeStart)) == []
  {
    var notice := Text(SteeringNotice(APPLIED, |s.mode.prompts|));
    assert SentBy(s, BridgeStart) == [notice];
    AppliedNoticeCounts(|s.mode.prompts|);
    FlatMapOne(notice, SaidBy);
  }

  lemma PushSaysQueued(s: System)
    requires s.mode.Submitting?
    ensures Said(SentBy(s, BridgePush)) == [QUEUED]
  {
    assert SentBy(s, BridgePush) == [Text(QUEUED)];
    QueuedNoticeIsSilent();
    FlatMapOne(Text(QUEUED), SaidBy);
  }

  lemma ReceiveSaysReply(s: System, reply: string)
    requires Enabled(s, BridgeReceive(reply)) && Plain(BridgeReceive(reply)) && Marked(s.c2s)
    ensures Said(SentBy(s, BridgeReceive(reply))) == AnswerBy(s, BridgeReceive(reply))
  {
    var sent := SentBy(s, BridgeReceive(reply));
    if IsCommand(s.c2s[0]) {
      assert sent == [Text(reply)];
      FlatMapOne(Text(reply), SaidBy);
    } else {
      assert sent == [];
    }
  }

  lemma StepAnswers(s: System, step: Step)
    requires Ledger(s) && Marked(s.c2s) && Enabled(s, step) && Plain(step)
    ensures Said(SentBy(s, step)) == AnswerBy(s, step)
  {
    match step
    case BridgePoll => EventsSayNothing(s, step);
    case BridgeReconcile => EventsSayNothing(s, step);
    case BridgeStart => StartSaysNothing(s);
    case BridgePush => PushSaysQueued(s);
    case BridgeReceive(reply) => ReceiveSaysReply(s, reply);
    case BridgeChatter =>
      assert SentBy(s, step) == [Chatter];
      FlatMapOne(Chatter, SaidBy);
    case _ =>
      assert SentBy(s, step) == [];
  }

  lemma StepKeepsMarked(s: System, step: Step)
    requires Marked(s.c2s) && Enabled(s, step)
    ensures Marked(Next(s, step).c2s)
  {
  }

  lemma {:induction false} RunAnswers(s: System, steps: seq<Step>)
    requires Ledger(s) && Marked(s.c2s) && Possible(s, steps) && forall i | 0 <= i < |steps| :: Plain(steps[i])
    ensures Said(SentFrames(s, steps)) == Answers(s, steps)
    decreases |steps|
  {
    if steps != [] {
      var next := Next(s, steps[0]);
      assert forall i | 0 <= i < |steps| - 1 :: steps[1..][i] == steps[i + 1];
      StepAnswers(s, steps[0]);
      StepKeepsLedger(s, steps[0]);
      StepKeepsMarked(s, steps[0]);
      RunAnswers(next, steps[1..]);
      FlatMapConcat(SentBy(s, steps[0]), SentFrames(next, steps[1..]), SaidBy);
    }
  }

  // In every plain run each command taken has its one reply, and each prompt
  // mirrored its one queued-notice, read or under way, in the order they were taken.
  lemma EveryLineIsAnswered(steps: seq<Step>)
    requires Possible(INITIAL, steps) && forall i | 0 <= i < |steps| :: Plain(steps[i])
    ensures
      var s := After(INITIAL, steps);
      Answers(INITIAL, steps) == Said(ReadFrames(INITIAL, steps)) + Said(s.s2c)
  {
    StartHasNoEvents();
    RunAnswers(INITIAL, steps);
    AnswersFromStart(INITIAL, steps);
  }

  lemma AnswersFromStart(start: System, steps: seq<Step>)
    requires start.s2c == [] && Possible(start, steps)
    ensures Said(SentFrames(start, steps)) == Said(ReadFrames(start, steps)) + Said(After(start, steps).s2c)
  {
    ChannelIsFifo(start, steps);
    SaidParts(start.s2c, SentFrames(start, steps), ReadFrames(start, steps), After(start, steps).s2c);
  }

  lemma SaidParts(before: seq<ServerFrame>, sent: seq<ServerFrame>, read: seq<ServerFrame>, left: seq<ServerFrame>)
    requires before == [] && before + sent == read + left
    ensures Said(sent) == Said(read) + Said(left)
  {
    assert before + sent == sent;
    FlatMapConcat(read, left, SaidBy);
  }

  // ---- lines ----

  function LineBy(step: Step): seq<string>
  {
    if step.Submit? then [step.line] else []
  }

  function Lines(steps: seq<Step>): seq<string>
    decreases |steps|
  {
    if steps == [] then [] else LineBy(steps[0]) + Lines(steps[1..])
  }

  function TakenBy(s: System, step: Step): seq<ClientFrame>
    requires Enabled(s, step)
  {
    if step.BridgeReceive? then [s.c2s[0]] else []
  }

  function Taken(s: System, steps: seq<Step>): seq<ClientFrame>
    requires Possible(s, steps)
    decreases |steps|
  {
    if steps == [] then [] else TakenBy(s, steps[0]) + Taken(Next(s, steps[0]), steps[1..])
  }

  function TextOf(f: ClientFrame): seq<string>
  {
    [f.text]
  }

  function PromptOf(f: ClientFrame): seq<string>
  {
    if IsCommand(f) then [] else [f.text]
  }

  lemma StepCarriesLines(s: System, step: Step)
    requires Enabled(s, step)
    ensures FlatMap(s.c2s, TextOf) + LineBy(step) == FlatMap(TakenBy(s, step), TextOf) + FlatMap(Next(s, step).c2s, TextOf)
  {
    var t := Next(s, step);
    if step.Submit? {
      var f := Prompt(step.line, CanQueueSteering(s.client, step.line));
      assert t.c2s == s.c2s + [f];
      FlatMapSnoc(s.c2s, f, TextOf);
    } else if step.BridgeReceive? {
      assert s.c2s == [s.c2s[0]] + t.c2s;
      FlatMapCons(s.c2s[0], t.c2s, TextOf);
      FlatMapOne(s.c2s[0], TextOf);
    } else {
      assert t.c2s == s.c2s;
    }
  }

  lemma StepReceivesPrompts(s: System, step: Step)
    requires Marked(s.c2s) && Enabled(s, step)
    ensures Next(s, step).received == s.received + FlatMap(TakenBy(s, step), PromptOf)
  {
    if step.BridgeReceive? {
      FlatMapOne(s.c2s[0], PromptOf);
    }
  }

  lemma {:induction false} RunCarriesLines(s: System, steps: seq<Step>)
    requires Marked(s.c2s) && Possible(s, steps)
    ensures FlatMap(s.c2s, TextOf) + Lines(steps) == FlatMap(Taken(s, steps), TextOf) + FlatMap(After(s, steps).c2s, TextOf)
    ensures After(s, steps).received == s.received + FlatMap(Taken(s, steps), PromptOf)
    decreases |steps|
  {
    if steps != [] {
      var next, taken := Next(s, steps[0]), TakenBy(s, steps[0]);
      var later := Taken(next, steps[1..]);
      StepCarriesLines(s, steps[0]);
      StepReceivesPrompts(s, steps[0]);
      StepKeepsMarked(s, steps[0]);
      RunCarriesLines(next, steps[1..]);
      FlatMapConcat(taken, later, TextOf);
      FlatMapConcat(taken, later, PromptOf);
      Associative(FlatMap(s.c2s, TextOf), LineBy(steps[0]), Lines(steps[1..]));
      Associative(FlatMap(taken, TextOf), FlatMap(next.c2s, TextOf), Lines(steps[1..]));
      Associative(FlatMap(taken, TextOf), FlatMap(later, TextOf), FlatMap(After(next, steps[1..]).c2s, TextOf));
      Associative(s.received, FlatMap(taken, PromptOf), FlatMap(later, PromptOf));
    }
  }

  // In every run the lines submitted are, in order, those the bridge has taken and
  // those on their way; of those taken it has received every one but the commands.
  lemma EveryLineArrives(steps: seq<Step>)
    requires Possible(INITIAL, steps)
    ensures
      var s := After(INITIAL, steps);
      && Lines(steps) == FlatMap(Taken(INITIAL, steps), TextOf) + FlatMap(s.c2s, TextOf)
      && s.received == FlatMap(Taken(INITIAL, steps), PromptOf)
  {
    StartHasNoEvents();
    LinesFromStart(INITIAL, steps);
  }

  lemma LinesFromStart(start: System, steps: seq<Step>)
    requires start.c2s == [] && start.received == [] && Possible(start, steps)
    ensures
      var s := After(start, steps);
      && Lines(steps) == FlatMap(Taken(start, steps), TextOf) + FlatMap(s.c2s, TextOf)
      && s.received == FlatMap(Taken(start, steps), PromptOf)
  {
    RunCarriesLines(start, steps);
    assert FlatMap(start.c2s, TextOf) + Lines(steps) == Lines(steps);
  }
}
