// Nothing gets stuck: from every state there is a way on, without any further
// line, to rest.
module SteeringProgress {
  import opened Notice
  import opened SteeringModel
  import opened SteeringLedger

  // The bridge is idle and both channels are empty.
  predicate AtRest(s: System)
  {
    s.mode.Idle? && s.c2s == [] && s.s2c == []
  }

  predicate NoneSubmits(steps: seq<Step>)
  {
    forall i | 0 <= i < |steps| :: !steps[i].Submit?
  }

  // A run without a further line that ends at rest.
  predicate Rests(s: System, steps: seq<Step>)
  {
    Possible(s, steps) && NoneSubmits(steps) && AtRest(After(s, steps))
  }

  lemma RestsLater(s: System, step: Step, rest: seq<Step>) returns (steps: seq<Step>)
    requires Enabled(s, step) && !step.Submit? && Rests(Next(s, step), rest)
    ensures Rests(s, steps)
  {
    steps := [step] + rest;
    assert steps[1..] == rest;
    assert NoneSubmits(steps);
  }

  // How far the bridge is from being idle, commands and prompts under way aside.
  function Stage(s: System): nat
  {
    match s.mode
    case Idle => 0
    case Running => if s.unconsumed == [] then 1 else 3
    case Starting(_) => 2
    case _ => 3
  }

  function Depth(s: System): nat
  {
    match s.mode
    case Submitting(_) => 2
    case Running => 1
    case _ => 0
  }

  predicate Closer(t: System, s: System)
  {
    || |t.c2s| < |s.c2s|
    || (|t.c2s| == |s.c2s| && Stage(t) < Stage(s))
    || (|t.c2s| == |s.c2s| && Stage(t) == Stage(s) && |t.run.events| < |s.run.events|)
    || (|t.c2s| == |s.c2s| && Stage(t) == Stage(s) && |t.run.events| == |s.run.events| && Depth(t) < Depth(s))
  }

  // The step the bridge takes towards rest.
  function Onward(s: System, reply: string): Step
  {
    match s.mode
    case Idle => BridgeReceive(reply)
    case Starting(_) => BridgeStart
    case Submitting(_) => BridgePush
    case Reconciling(_) => BridgeReconcile
    case Running =>
      if s.run.events != [] then BridgePoll
      else if s.c2s != [] && |s.unconsumed| + 1 < USIZE_LIMIT then BridgeReceive(reply)
      else BridgeStreamEnd
  }

  lemma OnwardIsPossible(s: System, reply: string)
    requires Ledger(s) && (s.mode.Idle? ==> s.c2s != [])
    ensures Enabled(s, Onward(s, reply)) && !Onward(s, reply).Submit?
  {
  }

  lemma ReceiveGetsCloser(s: System, reply: string)
    requires s.c2s != []
    ensures |DoBridgeReceive(s, reply).c2s| < |s.c2s|
  {
  }

  lemma RunningGetsCloser(s: System)
    requires Ledger(s) && s.mode.Running?
    ensures s.run.events != [] ==> Closer(DoBridgePoll(s), s)
    ensures s.run.events == [] ==> s.unconsumed == [] || s.c2s == [] || |s.unconsumed| + 1 >= USIZE_LIMIT ==> Closer(Complete(s), s)
  {
  }

  lemma OnwardGetsCloser(s: System, reply: string)
    requires Ledger(s) && (s.mode.Idle? ==> s.c2s != [])
    requires Enabled(s, Onward(s, reply))
    ensures Closer(Next(s, Onward(s, reply)), s)
  {
    if Onward(s, reply).BridgeReceive? {
      ReceiveGetsCloser(s, reply);
    } else if s.mode.Running? {
      RunningGetsCloser(s);
    }
  }

  // Once the bridge is idle the client reads what is left.
  lemma {:induction false} ClientReadsOn(s: System) returns (steps: seq<Step>)
    requires s.mode.Idle? && s.c2s == []
    ensures Rests(s, steps)
    decreases |s.s2c|
  {
    if s.s2c == [] {
      steps := [];
    } else {
      steps := ClientReadsOn(Next(s, ClientReceive));
      steps := RestsLater(s, ClientReceive, steps);
    }
  }

  lemma {:induction false} ComesToRest(s: System, reply: string) returns (steps: seq<Step>)
    requires Ledger(s)
    ensures Rests(s, steps)
    decreases |s.c2s|, Stage(s), |s.run.events|, Depth(s)
  {
    if s.mode.Idle? && s.c2s == [] {
      steps := ClientReadsOn(s);
    } else {
      var step := Onward(s, reply);
      OnwardIsPossible(s, reply);
      OnwardGetsCloser(s, reply);
      StepKeepsLedger(s, step);
      steps := ComesToRest(Next(s, step), reply);
      steps := RestsLater(s, step, steps);
    }
  }

  // Every run can be continued, whatever the commands still under way are answered,
  // to a state in which everything sent is read and no turn is in flight.
  lemma EveryRunCanRest(steps: seq<Step>, reply: string) returns (more: seq<Step>)
    requires Possible(INITIAL, steps)
    ensures Rests(After(INITIAL, steps), more)
  {
    RunKeepsLedger(INITIAL, steps);
    more := ComesToRest(After(INITIAL, steps), reply);
  }
}
