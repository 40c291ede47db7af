// Why the guards matter: a step taken outside its guard can be continued, by plain
// steps, to a state in which client and bridge visibly disagree.
module SteeringHarm {
  import opened Prelude
  import opened Notice
  import opened ClientTurn
  import opened SteeringModel
  import opened SteeringLedger
  import opened SteeringAgreement
  import opened SteeringSteps
  import opened SteeringTheorems

  // A plain run that ends in a visible disagreement.
  predicate Breaks(s: System, steps: seq<Step>)
  {
    Possible(s, steps) && AllPlain(steps) && !QueuesShow(After(s, steps))
  }

  lemma BreaksNow(s: System)
    requires !QueuesShow(s)
    ensures Breaks(s, [])
  {
  }

  lemma FirstThen(s: System, step: Step, rest: seq<Step>)
    requires Enabled(s, step) && Plain(step) && Breaks(Next(s, step), rest)
    ensures Breaks(s, [step] + rest)
  {
    assert ([step] + rest)[1..] == rest;
  }

  lemma BreaksLater(s: System, step: Step, rest: seq<Step>) returns (steps: seq<Step>)
    requires Enabled(s, step) && Plain(step) && Breaks(Next(s, step), rest)
    ensures Breaks(s, steps)
  {
    steps := [step] + rest;
    FirstThen(s, step, rest);
  }

  // ---- a line slips through to a busy bridge ----

  // The steps of bridge and kernel.
  predicate Serves(step: Step)
  {
    !step.Submit? && !step.ClientReceive? && Plain(step)
  }

  // `s` with one more line on its way, sent by a client that queued nothing for it.
  function Slip(s: System, f: ClientFrame, client: Turn): System
  {
    s.(client := client, c2s := s.c2s + [f])
  }

  predicate Slips(s: System, f: ClientFrame, client: Turn)
  {
    Agreement(s) && Ledger(s) && !Slash(f.text) && !f.steering && client.queued == s.client.queued
  }

  lemma ServesKeepsClient(s: System, step: Step)
    requires Serves(step) && Enabled(s, step)
    ensures Next(s, step).client == s.client
  {
  }

  // Until the line is read, bridge and kernel move as if it were not there.
  lemma SlipReads(s: System, f: ClientFrame, client: Turn, reply: string)
    requires Enabled(s, BridgeReceive(reply))
    ensures Enabled(Slip(s, f, client), BridgeReceive(reply))
    ensures DoBridgeReceive(Slip(s, f, client), reply) == Slip(DoBridgeReceive(s, reply), f, client)
  {
    assert (s.c2s + [f])[0] == s.c2s[0] && (s.c2s + [f])[1..] == s.c2s[1..] + [f];
  }

  lemma SlipMoves(s: System, f: ClientFrame, client: Turn, step: Step)
    requires Serves(step) && Enabled(s, step)
    ensures Enabled(Slip(s, f, client), step) && Next(Slip(s, f, client), step) == Slip(Next(s, step), f, client)
  {
    match step
    case BridgeReceive(reply) => SlipReads(s, f, client, reply);
    case _ =>
  }

  lemma SlipServes(s: System, f: ClientFrame, client: Turn, step: Step)
    requires Slips(s, f, client) && Serves(step) && Enabled(s, step)
    ensures Slips(Next(s, step), f, client)
  {
    StepAgrees(s, step);
    StepKeepsLedger(s, step);
    ServesKeepsClient(s, step);
  }

  lemma ServeThen(s: System, f: ClientFrame, client: Turn, step: Step, rest: seq<Step>) returns (steps: seq<Step>)
    requires Slips(s, f, client) && Serves(step) && Enabled(s, step)
    requires Breaks(Slip(Next(s, step), f, client), rest)
    ensures Breaks(Slip(s, f, client), steps)
  {
    SlipMoves(s, f, client, step);
    steps := BreaksLater(Slip(s, f, client), step, rest);
  }

  predicate HasRoom(s: System)
  {
    |s.unconsumed| + 1 < USIZE_LIMIT
  }

  lemma LengthsAgree(s: System, queued: seq<string>)
    requires s.c2s == [] && QueuesAgree(queued, s.inflight, Held(s), Work(s.c2s))
    ensures |queued| == |Flatten(s.inflight)| + |Held(s)|
  {
    assert Work([]) == [] && |Texts([])| == 0;
  }

  // A running bridge that reads the line holds a prompt the client never queued.
  lemma HoldsUnqueued(s: System, f: ClientFrame, client: Turn, reply: string)
    requires Slips(s, f, client) && s.mode.Running? && s.c2s == []
    ensures !QueuesShow(DoBridgeReceive(Slip(s, f, client), reply))
  {
    var u := DoBridgeReceive(Slip(s, f, client), reply);
    SlipIsRead(s, f, client, reply);
    LengthsAgree(s, client.queued);
    if QueuesShow(u) {
      LengthsAgree(u, u.client.queued);
    }
  }

  lemma SlipIsRead(s: System, f: ClientFrame, client: Turn, reply: string)
    requires s.mode.Running? && s.c2s == [] && !Slash(f.text)
    ensures
      var u := DoBridgeReceive(Slip(s, f, client), reply);
      u.c2s == [] && u.client == client && u.inflight == s.inflight && Held(u) == s.unconsumed + [f.text]
  {
    var t := Slip(s, f, client);
    assert t.c2s == [f] && t.c2s[1..] == [];
  }

  lemma TakesUnqueued(s: System, f: ClientFrame, client: Turn, reply: string) returns (steps: seq<Step>)
    requires Slips(s, f, client) && s.mode.Running? && s.c2s == [] && HasRoom(s) && Plain(BridgeReceive(reply))
    ensures Breaks(Slip(s, f, client), steps)
  {
    HoldsUnqueued(s, f, client, reply);
    BreaksNow(DoBridgeReceive(Slip(s, f, client), reply));
    steps := BreaksLater(Slip(s, f, client), BridgeReceive(reply), []);
  }

  // A running bridge comes to read the line, whatever is before it.
  lemma {:induction false} RunningReads(s: System, f: ClientFrame, client: Turn) returns (steps: seq<Step>)
    requires Slips(s, f, client) && s.mode.Running?
    ensures Breaks(Slip(s, f, client), steps)
    decreases |s.c2s|, !HasRoom(s), |s.run.events|
  {
    if !HasRoom(s) {
      steps := RunningMakesRoom(s, f, client);
    } else if s.c2s == [] {
      EmptyReplyIsPlain();
      steps := TakesUnqueued(s, f, client, "");
    } else {
      EmptyReplyIsPlain();
      SlipServes(s, f, client, BridgeReceive(""));
      var next := Next(s, BridgeReceive(""));
      if next.mode.Running? {
        steps := RunningReads(next, f, client);
      } else {
        SlipServes(next, f, client, BridgePush);
        steps := RunningReads(Next(next, BridgePush), f, client);
        steps := ServeThen(next, f, client, BridgePush, steps);
      }
      steps := ServeThen(s, f, client, BridgeReceive(""), steps);
    }
  }

  // A full mirror is emptied by reading events, or by completing the turn: two
  // steps that leave it running, with room or with one event less.
  lemma MakesRoom(s: System) returns (step: Step, back: Step)
    requires ShapeHolds(s) && s.mode.Running? && !HasRoom(s)
    ensures Serves(step) && Serves(back) && Enabled(s, step) && Enabled(Next(s, step), back)
    ensures
      var t := Next(Next(s, step), back);
      t.mode.Running? && t.c2s == s.c2s && (HasRoom(t) || |t.run.events| < |s.run.events|)
  {
    step := if s.run.events == [] then BridgeStreamEnd else BridgePoll;
    back := if Next(s, step).mode.Starting? then BridgeStart else BridgeReconcile;
  }

  lemma {:induction false} RunningMakesRoom(s: System, f: ClientFrame, client: Turn) returns (steps: seq<Step>)
    requires Slips(s, f, client) && s.mode.Running? && !HasRoom(s)
    ensures Breaks(Slip(s, f, client), steps)
    decreases |s.c2s|, true, |s.run.events|, 0
  {
    var step, back := MakesRoom(s);
    var next := Next(s, step);
    SlipServes(s, f, client, step);
    SlipServes(next, f, client, back);
    steps := RunningReads(Next(next, back), f, client);
    steps := ServeThen(next, f, client, back, steps);
    steps := ServeThen(s, f, client, step, steps);
  }

  // A bridge that runs, or has something before the line to run on, comes to read it.
  lemma {:induction false} BridgeReads(s: System, f: ClientFrame, client: Turn) returns (steps: seq<Step>)
    requires Slips(s, f, client) && !(s.mode.Idle? && Work(s.c2s) == [])
    ensures Breaks(Slip(s, f, client), steps)
    decreases |s.c2s|, if s.mode.Idle? then 2 else if s.mode.Running? then 0 else 1
  {
    if s.mode.Running? {
      steps := RunningReads(s, f, client);
    } else {
      EmptyReplyIsPlain();
      var step := match s.mode
        case Starting(_) => BridgeStart
        case Submitting(_) => BridgePush
        case Reconciling(_) => BridgeReconcile
        case _ => BridgeReceive("");
      if s.mode.Idle? {
        WorkHead(s.c2s);
      }
      SlipServes(s, f, client, step);
      steps := BridgeReads(Next(s, step), f, client);
      steps := ServeThen(s, f, client, step, steps);
    }
  }

  // ---- a `final` still in flight ends the turn of a line that slipped through ----

  // The bridge is idle, a line is on its way to it, and of a `final` in flight no
  // notice follows.
  predicate FinalAhead(s: System)
  {
    && s.client.busy && s.mode.Idle? && s.unconsumed == [] && Work(s.c2s) != []
    && CountsAgree(s.s2c, s.inflight) && QueuesAgree(s.client.queued, s.inflight, [], [])
    && !Settled(s.s2c, false)
  }

  lemma ReadAhead(s: System)
    requires FinalAhead(s) && DoClientReceive(s).client.busy
    ensures FinalAhead(DoClientReceive(s))
  {
    var f := s.s2c[0];
    CountsTail(s.s2c, s.inflight);
    if AppliedCount(f) != [] {
      QueuePops(s.client.queued, s.inflight, [], []);
      AcknowledgeApplies(s);
    } else if f == Forward(Final) && AppliedCounts(s.s2c[1..]) == [] {
      LastFinalEndsTurn(s);
      assert false;
    }
  }

  lemma LastFinalEndsTurn(s: System)
    requires FinalAhead(s) && s.s2c[0] == Forward(Final) && AppliedCounts(s.s2c[1..]) == []
    ensures !DoClientReceive(s).client.busy
  {
    CountsTail(s.s2c, s.inflight);
    assert s.inflight == [] && s.client.queued == [];
  }

  lemma {:induction false} ClientGoesIdle(s: System) returns (steps: seq<Step>)
    requires FinalAhead(s)
    ensures Breaks(s, steps)
    decreases |s.s2c|
  {
    var next := Next(s, ClientReceive);
    if next.client.busy {
      ReadAhead(s);
      steps := ClientGoesIdle(next);
    } else {
      BreaksNow(next);
      steps := [];
    }
    steps := BreaksLater(s, ClientReceive, steps);
  }

  // ---- every unguarded step ----

  lemma SlippedSubmit(s: System, line: string, now: nat)
    requires Enabled(s, Submit(line, now)) && Plain(Submit(line, now)) && SlipsThrough(s.client, line)
    ensures
      var client := Submitted(s.client, line, None, now);
      && DoSubmit(s, line, now) == Slip(s, Prompt(line, false), client)
      && client.busy && client.queued == s.client.queued
  {
    NotBlocking(line);
  }

  lemma UnguardedSubmitBreaks(s: System, line: string, now: nat) returns (steps: seq<Step>)
    requires Agreement(s) && Ledger(s) && Enabled(s, Submit(line, now)) && Plain(Submit(line, now))
    requires !Harmless(s, Submit(line, now))
    ensures Breaks(Next(s, Submit(line, now)), steps)
  {
    var f, client := Prompt(line, false), Submitted(s.client, line, None, now);
    SlippedSubmit(s, line, now);
    if s.mode.Idle? && Work(s.c2s) == [] {
      WorkSnoc(s.c2s, f);
      steps := ClientGoesIdle(Slip(s, f, client));
    } else {
      steps := BridgeReads(s, f, client);
    }
  }

  lemma UnguardedReadBreaks(s: System)
    requires s.s2c != [] && !Harmless(s, ClientReceive)
    ensures !QueuesShow(Next(s, ClientReceive))
  {
    CompactionEnds(s);
    assert s.s2c == [s.s2c[0]] + s.s2c[1..];
  }

  // After a step outside its guard, from any state in agreement, some plain run
  // leads to a state in which the client's queue is not what is held or under way,
  // or the client is idle although something runs or is on its way.
  lemma UnguardedStepBreaks(s: System, step: Step) returns (steps: seq<Step>)
    requires Agreement(s) && Ledger(s) && Enabled(s, step) && Plain(step) && !Harmless(s, step)
    ensures Breaks(Next(s, step), steps)
  {
    if step.Submit? {
      steps := UnguardedSubmitBreaks(s, step.line, step.now);
    } else {
      UnguardedReadBreaks(s);
      BreaksNow(Next(s, step));
      steps := [];
    }
  }

  lemma ConsPrefix(steps: seq<Step>, k: nat, rest: seq<Step>)
    requires k < |steps|
    ensures [steps[0]] + (steps[1..][..k] + rest) == steps[..k + 1] + rest
  {
  }

  lemma PlainTail(steps: seq<Step>)
    requires AllPlain(steps) && steps != []
    ensures Plain(steps[0]) && AllPlain(steps[1..])
  {
    assert forall i | 0 <= i < |steps| - 1 :: steps[1..][i] == steps[i + 1];
  }

  // A plain run that leaves the guards at some step.
  predicate Strays(s: System, steps: seq<Step>)
  {
    Agreement(s) && Ledger(s) && Possible(s, steps) && AllPlain(steps) && !AllHarmless(s, steps)
  }

  lemma StraysLater(s: System, steps: seq<Step>)
    requires Strays(s, steps) && Harmless(s, steps[0])
    ensures Strays(Next(s, steps[0]), steps[1..])
  {
    PlainTail(steps);
    StepAgrees(s, steps[0]);
    StepKeepsLedger(s, steps[0]);
  }

  lemma StraysNow(s: System, steps: seq<Step>) returns (rest: seq<Step>)
    requires Strays(s, steps) && !Harmless(s, steps[0])
    ensures Breaks(Next(s, steps[0]), rest)
  {
    PlainTail(steps);
    rest := UnguardedStepBreaks(s, steps[0]);
  }

  // `k` steps of the run after its first, and then some others.
  lemma BreaksAlong(s: System, steps: seq<Step>, k: nat, rest: seq<Step>)
    requires Strays(s, steps) && k < |steps| && Breaks(Next(s, steps[0]), steps[1..][..k] + rest)
    ensures Breaks(s, steps[..k + 1] + rest)
  {
    PlainTail(steps);
    FirstThen(s, steps[0], steps[1..][..k] + rest);
    ConsPrefix(steps, k, rest);
  }

  lemma {:induction false} UnguardedRunBreaks(s: System, steps: seq<Step>) returns (k: nat, rest: seq<Step>)
    requires Strays(s, steps)
    ensures k < |steps| && Breaks(s, steps[..k + 1] + rest)
    decreases |steps|
  {
    if Harmless(s, steps[0]) {
      StraysLater(s, steps);
      k, rest := UnguardedRunBreaks(Next(s, steps[0]), steps[1..]);
      k := k + 1;
    } else {
      k := 0;
      rest := StraysNow(s, steps);
      assert steps[1..][..0] + rest == rest;
    }
    BreaksAlong(s, steps, k, rest);
  }

  // So the guards are exact for what is seen: a plain run from the start that
  // leaves them at some step could have gone on, plainly, to a visible disagreement.
  lemma LeavingTheGuardsBreaks(steps: seq<Step>) returns (k: nat, rest: seq<Step>)
    requires Possible(INITIAL, steps) && AllPlain(steps) && !AllHarmless(INITIAL, steps)
    ensures k < |steps| && Breaks(INITIAL, steps[..k + 1] + rest)
  {
    InitialAgrees();
    k, rest := UnguardedRunBreaks(INITIAL, steps);
  }
}
