// Concrete runs in which the unconditional form of a promise fails. Each
// state below differs from the one before it by the step named beside it.
module SteeringAnomalies {
  import opened Prelude
  import opened ClientTurn
  import opened SteeringModel
  import opened SteeringSteps

  predicate Moves(s: System, step: Step, t: System)
  {
    Enabled(s, step) && Next(s, step) == t
  }

  // Alternating states and steps of a run.
  predicate Path(states: seq<System>, steps: seq<Step>)
  {
    && |states| == |steps| + 1
    && forall i | 0 <= i < |steps| :: Moves(states[i], steps[i], states[i + 1])
  }

  lemma {:induction false} PathIsRun(states: seq<System>, steps: seq<Step>)
    requires Path(states, steps)
    ensures Possible(states[0], steps) && After(states[0], steps) == states[|steps|]
    decreases |steps|
  {
    if steps != [] {
      assert forall i | 0 <= i < |steps| - 1 :: states[1..][i] == states[i + 1] && steps[1..][i] == steps[i + 1];
      assert Moves(states[0], steps[0], states[1]);
      forall i | 0 <= i < |steps| - 1 ensures Moves(states[1..][i], steps[1..][i], states[1..][i + 1]) {
        assert Moves(states[i + 1], steps[i + 1], states[i + 1 + 1]);
      }
      PathIsRun(states[1..], steps[1..]);
    }
  }

  lemma PathJoin(a: seq<System>, b: seq<System>, xs: seq<Step>, ys: seq<Step>)
    requires Path(a, xs) && Path(b, ys) && a[|xs|] == b[0]
    ensures Path(a + b[1..], xs + ys)
  {
    var states, steps := a + b[1..], xs + ys;
    forall i | 0 <= i < |steps| ensures Moves(states[i], steps[i], states[i + 1]) {
      if i < |xs| {
        assert Moves(a[i], xs[i], a[i + 1]);
      } else {
        assert Moves(b[i - |xs|], ys[i - |xs|], b[i - |xs| + 1]);
      }
    }
  }

  lemma Types(s: System, line: string, now: nat)
    requires |line| == 1 && line[0] != '/' && !IsWhitespace(line[0])
    ensures Moves(s, Submit(line, now),
                  s.(client := Submitted(s.client, line, None, now),
                     c2s := s.c2s + [Prompt(line, CanQueueSteering(s.client, line))]))
  {
    NotBlocking(line);
  }

  // A turn starts on "a".
  const S0 := INITIAL
  const S1 := S0.(client := Turn(true, Some(0), None, []), c2s := [Prompt("a", false)])
  const S2 := S1.(c2s := [], mode := Running, received := ["a"], fed := ["a"])
  // "b" is steered into it.
  const S3 := S2.(client := Turn(true, Some(0), None, ["b"]), c2s := [Prompt("b", true)])
  const S4 := S3.(c2s := [], mode := Submitting("b"), received := ["a", "b"], run := FRESH_RUN.(pending := ["b"]))
  const S5 := S4.(mode := Running, unconsumed := ["b"], s2c := [Text(QUEUED)])

  const STEERED: seq<Step> :=
    [Submit("a", 0), BridgeReceive(""), Submit("b", 1), BridgeReceive(""), BridgePush]

  lemma TypingA()
    ensures Moves(S0, Submit("a", 0), S1)
  {
    Types(S0, "a", 0);
  }

  lemma StartingA()
    ensures Moves(S1, BridgeReceive(""), S2)
  {
  }

  lemma TypingB()
    ensures Moves(S2, Submit("b", 1), S3)
  {
    Types(S2, "b", 1);
  }

  lemma SubmittingB()
    ensures Moves(S3, BridgeReceive(""), S4) && Moves(S4, BridgePush, S5)
  {
  }

  // The model drains "b" and finishes without a further non-final event, so the
  // mirror still holds "b" and a follow-up turn gives it to the model again.
  const R1 := S5.(run := S5.run.(pending := [], drained := ["b"], drainUnreported := true), fed := ["a", "b"])
  const R2 := R1.(run := R1.run.(phase := Stopped))
  const R3 := R2.(run := R2.run.(phase := Done, events := [Final]))
  const R4 := R3.(mode := Starting(["b"]), unconsumed := [], clean := false,
                  run := R3.run.(events := []), s2c := [Text(QUEUED), Forward(Final)])
  const R5 := R4.(mode := Running, run := FRESH_RUN, fed := ["a", "b", "b"], inflight := [["b"]],
                  s2c := [Text(QUEUED), Forward(Final), Text(APPLIED)])

  const REPEATING: seq<Step> := [KernelDrain, KernelStop, KernelFinish, BridgePoll, BridgeStart]

  lemma Draining()
    ensures Moves(S5, KernelDrain, R1) && Moves(R1, KernelStop, R2) && Moves(R2, KernelFinish, R3)
  {
  }

  lemma FinishingR()
    ensures Moves(R3, BridgePoll, R4)
  {
  }

  lemma FollowingUp()
    ensures Moves(R4, BridgeStart, R5)
  {
  }

  // The model stops while a token is still buffered: `on_stop` discards "b", the
  // token's registry reading counts it as consumed, and the turn ends without it.
  const L1 := S5.(run := S5.run.(events := [Stream]))
  const L2 := L1.(run := L1.run.(phase := Stopped, pending := [], cleared := ["b"]))
  const L3 := L2.(run := L2.run.(phase := Done, events := [Stream, Final]))
  const L4 := L3.(mode := Reconciling(0), run := L3.run.(clearReported := true))
  const L5 := L4.(mode := Running, unconsumed := [], dropped := 1, inflight := [["b"]],
                  run := L4.run.(events := [Final]),
                  s2c := [Text(QUEUED), Text(APPLIED), Forward(Stream)])
  const L6 := L5.(mode := Idle, clean := false, run := L5.run.(events := []),
                  s2c := [Text(QUEUED), Text(APPLIED), Forward(Stream), Forward(Final)])

  const LOSING: seq<Step> :=
    [KernelEmit(Stream), KernelStop, KernelFinish, BridgePoll, BridgeReconcile, BridgePoll]

  lemma Stopping()
    ensures Moves(S5, KernelEmit(Stream), L1) && Moves(L1, KernelStop, L2) && Moves(L2, KernelFinish, L3)
  {
  }

  lemma Reading()
    ensures Moves(L3, BridgePoll, L4)
  {
  }

  lemma Popping()
    ensures Moves(L4, BridgeReconcile, L5)
  {
    assert L4.unconsumed[..1] == ["b"] && L4.unconsumed[1..] == [];
    assert [Stream, Final][1..] == [Final];
  }

  lemma FinishingL()
    ensures Moves(L5, BridgePoll, L6)
  {
  }

  // A tool named "compact" makes the client send "b" as a plain prompt while the
  // bridge, busy with the turn, takes it for steering.
  const T1 := S2.(run := FRESH_RUN.(events := [ToolStarted(COMPACT)]))
  const T2 := T1.(run := FRESH_RUN, s2c := [Forward(ToolStarted(COMPACT))])
  const T3 := T2.(client := Turn(true, Some(0), Some(COMPACT), []), s2c := [])
  const T4 := T3.(client := Turn(true, Some(0), None, []), c2s := [Prompt("b", false)])
  const T5 := T4.(c2s := [], mode := Submitting("b"), received := ["a", "b"], run := FRESH_RUN.(pending := ["b"]))

  const COMPACTING_TOOL: seq<Step> :=
    [Submit("a", 0), BridgeReceive(""), KernelEmit(ToolStarted(COMPACT)), BridgePoll, ClientReceive, Submit("b", 1), BridgeReceive("")]

  lemma ToolStarts()
    ensures Moves(S2, KernelEmit(ToolStarted(COMPACT)), T1) && Moves(T1, BridgePoll, T2)
  {
  }

  lemma ToolShows()
    ensures Moves(T2, ClientReceive, T3)
  {
  }

  lemma TypingDuringTool()
    ensures Moves(T3, Submit("b", 1), T4)
  {
    Types(T3, "b", 1);
  }

  lemma TakenForSteering()
    ensures Moves(T4, BridgeReceive(""), T5)
  {
  }

  lemma SteeredPath()
    ensures Path([S0, S1, S2, S3, S4, S5], STEERED)
  {
    TypingA();
    StartingA();
    TypingB();
    SubmittingB();
  }

  lemma LosingPath()
    ensures Path([S5, L1, L2, L3, L4, L5, L6], LOSING)
  {
    Stopping();
    Reading();
    Popping();
    FinishingL();
  }

  // A steering prompt can be lost: acknowledged to the client, yet neither given
  // to the model nor carried over.
  lemma PromptCanBeLost() returns (steps: seq<Step>)
    ensures Possible(INITIAL, steps)
    ensures
      var s := After(INITIAL, steps);
      s.mode.Idle? && s.received == ["a", "b"] && s.fed == ["a"] && s.inflight == [["b"]]
  {
    SteeredPath();
    LosingPath();
    steps := STEERED + LOSING;
    PathJoin([S0, S1, S2, S3, S4, S5], [S5, L1, L2, L3, L4, L5, L6], STEERED, LOSING);
    PathIsRun([S0, S1, S2, S3, S4, S5] + [S5, L1, L2, L3, L4, L5, L6][1..], steps);
  }

  lemma RepeatingPath()
    ensures Path([S5, R1, R2, R3, R4, R5], REPEATING)
  {
    Draining();
    FinishingR();
    FollowingUp();
  }

  // A steering prompt can be handled twice.
  lemma PromptCanBeRepeated() returns (steps: seq<Step>)
    ensures Possible(INITIAL, steps)
    ensures
      var s := After(INITIAL, steps);
      s.received == ["a", "b"] && s.fed == ["a", "b", "b"]
  {
    SteeredPath();
    RepeatingPath();
    steps := STEERED + REPEATING;
    PathJoin([S0, S1, S2, S3, S4, S5], [S5, R1, R2, R3, R4, R5], STEERED, REPEATING);
    PathIsRun([S0, S1, S2, S3, S4, S5] + [S5, R1, R2, R3, R4, R5][1..], steps);
  }

  lemma ShortIsPlain(line: string, now: nat)
    requires |line| == 1 && line[0] != '/'
    ensures Plain(Submit(line, now))
  {
  }

  lemma CompactingStepsArePlain()
    ensures forall i | 0 <= i < |COMPACTING_TOOL| :: Plain(COMPACTING_TOOL[i])
  {
    ShortIsPlain("a", 0);
    ShortIsPlain("b", 1);
    EmptyReplyIsPlain();
    forall i | 0 <= i < |COMPACTING_TOOL| ensures Plain(COMPACTING_TOOL[i]) {
      if COMPACTING_TOOL[i].Submit? {
        assert i == 0 || i == 5;
      } else if COMPACTING_TOOL[i].BridgeReceive? {
        assert COMPACTING_TOOL[i] == BridgeReceive("");
      }
    }
  }

  lemma CompactingPath()
    ensures Path([S0, S1, S2, T1, T2, T3, T4, T5], COMPACTING_TOOL)
  {
    TypingA();
    StartingA();
    ToolStarts();
    ToolShows();
    TypingDuringTool();
    TakenForSteering();
  }

  // With a tool named "compact" running, a plain run can leave the bridge with a
  // prompt that the client never queued.
  lemma CompactToolBreaksAgreement() returns (steps: seq<Step>)
    ensures Possible(INITIAL, steps) && forall i | 0 <= i < |steps| :: Plain(steps[i])
    ensures
      var s := After(INITIAL, steps);
      s.client.queued == [] && s.inflight == [] && Held(s) == ["b"]
  {
    CompactingPath();
    CompactingStepsArePlain();
    steps := COMPACTING_TOOL;
    PathIsRun([S0, S1, S2, T1, T2, T3, T4, T5], steps);
  }
}
