// The steering protocol's promises over whole runs, and exactly when they hold.
module SteeringTheorems {
  import opened ClientTurn
  import opened SteeringModel
  import opened SteeringLedger
  import opened SteeringAgreement
  import opened SteeringSteps

  predicate AllPlain(steps: seq<Step>)
  {
    forall i | 0 <= i < |steps| :: Plain(steps[i])
  }

  // Every step is taken under its guard.
  predicate AllHarmless(s: System, steps: seq<Step>)
    requires Possible(s, steps)
    decreases |steps|
  {
    steps != [] ==> Harmless(s, steps[0]) && AllHarmless(Next(s, steps[0]), steps[1..])
  }

  // The agreement holds now and after every step.
  predicate AgreesThroughout(s: System, steps: seq<Step>)
    requires Possible(s, steps)
    decreases |steps|
  {
    Agreement(s) && (steps != [] ==> AgreesThroughout(Next(s, steps[0]), steps[1..]))
  }

  // A plain run agrees throughout if and only if every step is taken under its guard.
  lemma {:induction false} RunAgrees(s: System, steps: seq<Step>)
    requires Agreement(s) && Ledger(s) && Possible(s, steps) && AllPlain(steps)
    ensures AgreesThroughout(s, steps) <==> AllHarmless(s, steps)
    ensures AllHarmless(s, steps) ==> Agreement(After(s, steps))
    decreases |steps|
  {
    if steps != [] {
      var next := Next(s, steps[0]);
      StepAgrees(s, steps[0]);
      StepKeepsLedger(s, steps[0]);
      assert forall i | 0 <= i < |steps| - 1 :: steps[1..][i] == steps[i + 1];
      if Harmless(s, steps[0]) {
        RunAgrees(next, steps[1..]);
      }
    }
  }

  predicate NeverStartsCompact(steps: seq<Step>)
  {
    forall i | 0 <= i < |steps| :: steps[i] != KernelEmit(ToolStarted(COMPACT))
  }

  // In particular a run in which no tool is called "compact".
  lemma {:induction false} RunWithoutCompactTool(s: System, steps: seq<Step>)
    requires NoCompactTool(s) && Possible(s, steps) && AllPlain(steps) && NeverStartsCompact(steps)
    ensures AllHarmless(s, steps)
    decreases |steps|
  {
    if steps != [] {
      NoCompactToolIsHarmless(s, steps[0]);
      assert forall i | 0 <= i < |steps| - 1 :: steps[1..][i] == steps[i + 1];
      RunWithoutCompactTool(Next(s, steps[0]), steps[1..]);
    }
  }

  lemma UsualRunsAreHarmless(steps: seq<Step>)
    requires Possible(INITIAL, steps) && AllPlain(steps) && NeverStartsCompact(steps)
    ensures AllHarmless(INITIAL, steps)
  {
    RunWithoutCompactTool(INITIAL, steps);
  }

  lemma InitialAgrees()
    ensures Agreement(INITIAL) && Ledger(INITIAL)
  {
  }

  lemma RunFromStart(steps: seq<Step>)
    requires Possible(INITIAL, steps) && AllPlain(steps) && AllHarmless(INITIAL, steps)
    ensures Agreement(After(INITIAL, steps)) && Ledger(After(INITIAL, steps))
  {
    InitialAgrees();
    RunAgrees(INITIAL, steps);
    RunKeepsLedger(INITIAL, steps);
  }

  // The client's queue is exactly: the prompts whose notice is under way, then what
  // the bridge holds, then the steering prompts under way. An idle client means an
  // idle bridge, no prompt on its way and no `final` in flight.
  predicate QueuesShow(s: System)
  {
    && s.client.queued == Flatten(s.inflight) + Held(s) + Texts(SteeringPart(Work(s.c2s)))
    && (!s.client.busy ==> s.mode.Idle? && Work(s.c2s) == [] && NoFinal(s.s2c) && s.client.queued == [])
  }

  // In every run under these guards.
  lemma ClientAndServerQueuesAgree(steps: seq<Step>)
    requires Possible(INITIAL, steps) && AllPlain(steps) && AllHarmless(INITIAL, steps)
    ensures QueuesShow(After(INITIAL, steps))
  {
    RunFromStart(steps);
  }

  // Once the channels are empty and the bridge is idle, nothing stays queued.
  lemma NothingStaysQueued(steps: seq<Step>)
    requires Possible(INITIAL, steps) && AllPlain(steps) && AllHarmless(INITIAL, steps)
    requires var s := After(INITIAL, steps); s.mode.Idle? && s.c2s == [] && s.s2c == []
    ensures After(INITIAL, steps).client.queued == []
  {
    RunFromStart(steps);
    var s := After(INITIAL, steps);
    assert |s.inflight| == |AppliedCounts(s.s2c)| == 0;
    assert Held(s) == [] && Work(s.c2s) == [];
  }

  // Reading the frame at the head of the channel pops exactly the batch that frame
  // was printed for.
  predicate PopsItsBatch(s: System)
    requires s.s2c != []
  {
    && s.inflight != []
    && s.client.queued == s.inflight[0] + DoClientReceive(s).client.queued
    && DoClientReceive(s).inflight == s.inflight[1..]
  }

  lemma AgreementPops(s: System)
    requires Agreement(s) && s.s2c != [] && AppliedCount(s.s2c[0]) != []
    ensures PopsItsBatch(s)
  {
    AcknowledgePops(s);
  }

  // Whenever the client reads a counted notice, it pops exactly the batch that
  // notice was printed for.
  lemma NoticePopsWhatItAcknowledges(steps: seq<Step>)
    requires Possible(INITIAL, steps) && AllPlain(steps) && AllHarmless(INITIAL, steps)
    requires After(INITIAL, steps).s2c != [] && AppliedCount(After(INITIAL, steps).s2c[0]) != []
    ensures PopsItsBatch(After(INITIAL, steps))
  {
    RunFromStart(steps);
    AgreementPops(After(INITIAL, steps));
  }
}
