// What becomes of the prompts a turn accepts, in every interleaving of the
// three actors.
module SteeringLedger {
  import opened Notice
  import opened SteeringModel

  // How much of what the run accepted a registry reading has marked consumed,
  // counting a reading whose pops have not happened yet.
  function Reported(s: System): int
  {
    if s.mode.Reconciling? then |Accepted(s.run)| - s.mode.pendingCount else s.dropped
  }

  // The mirror is what the run accepted minus what was dropped, so the
  // registry's pending list is always a suffix of it.
  predicate MirrorHolds(s: System)
  {
    Live(s.mode) ==> s.dropped <= |Accepted(s.run)| && Held(s) == Accepted(s.run)[s.dropped..]
  }

  predicate ReportHolds(s: System)
  {
    Live(s.mode) ==>
      && s.dropped <= Reported(s) <= |s.run.drained| + |s.run.cleared|
      && (s.run.phase.Active? ==> s.run.cleared == [])
      && (s.run.drainUnreported <==> Reported(s) < |s.run.drained|)
      && (s.run.clearReported <==> Reported(s) > |s.run.drained|)
  }

  predicate ShapeHolds(s: System)
  {
    && (!Live(s.mode) ==> s.unconsumed == [])
    && (s.mode.Starting? ==> s.mode.prompts != [])
    && (s.mode.Reconciling? ==> s.run.events != [] && !s.run.events[0].Final?)
    && |Held(s)| < USIZE_LIMIT
  }

  // Prompts received but not given to the model yet, when nothing went astray.
  function Outstanding(s: System): seq<string>
  {
    if Live(s.mode) then Accepted(s.run)[|s.run.drained|..]
    else if s.mode.Starting? then s.mode.prompts
    else []
  }

  predicate FeedHolds(s: System)
  {
    s.clean ==> s.received == s.fed + Outstanding(s)
  }

  predicate Ledger(s: System)
  {
    MirrorHolds(s) && ReportHolds(s) && ShapeHolds(s) && FeedHolds(s)
  }

  // Accepting one more prompt extends the accepted list and what is held of it.
  lemma AcceptedGrows(run: Run, prompt: string, from: nat)
    requires from <= |Accepted(run)|
    ensures
      var grown := Accepted(run.(pending := run.pending + [prompt]));
      && grown == Accepted(run) + [prompt]
      && grown[from..] == Accepted(run)[from..] + [prompt]
  {
    var grown := Accepted(run.(pending := run.pending + [prompt]));
    assert grown == Accepted(run) + [prompt];
  }

  lemma SubmitKeepsLedger(s: System, prompt: string)
    requires Ledger(s) && s.mode.Running? && |s.unconsumed| + 1 < USIZE_LIMIT
    ensures Ledger(s.(mode := Submitting(prompt), received := s.received + [prompt],
                      run := s.run.(pending := s.run.pending + [prompt])))
  {
    AcceptedGrows(s.run, prompt, s.dropped);
    AcceptedGrows(s.run, prompt, |s.run.drained|);
    assert s.fed + (Outstanding(s) + [prompt]) == s.fed + Outstanding(s) + [prompt];
  }

  lemma ReceiveKeepsLedger(s: System, reply: string)
    requires Ledger(s) && Enabled(s, BridgeReceive(reply))
    ensures Ledger(DoBridgeReceive(s, reply))
  {
    if s.mode.Running? {
      SubmitKeepsLedger(s, s.c2s[0].text);
    } else {
      assert FRESH_RUN.drained == FRESH_RUN.cleared == FRESH_RUN.pending == [];
    }
  }

  lemma PushKeepsLedger(s: System)
    requires Ledger(s) && s.mode.Submitting?
    ensures Ledger(DoBridgePush(s))
  {
  }

  lemma StartKeepsLedger(s: System)
    requires Ledger(s) && s.mode.Starting?
    ensures Ledger(DoBridgeStart(s))
  {
  }

  lemma CompleteKeepsLedger(s: System)
    requires Ledger(s) && s.mode.Running?
    ensures Ledger(Complete(s))
  {
    var t := Complete(s);
    if t.clean {
      assert Outstanding(t) == s.unconsumed == Outstanding(s);
    }
  }

  lemma PollKeepsLedger(s: System)
    requires Ledger(s) && Enabled(s, BridgePoll)
    ensures Ledger(DoBridgePoll(s))
  {
    if s.run.events[0].Final? {
      CompleteKeepsLedger(s.(run := s.run.(events := s.run.events[1..]), s2c := s.s2c + [Forward(s.run.events[0])]));
    }
  }

  lemma DropPrefix<T>(a: seq<T>, dropped: nat, more: nat)
    requires dropped + more <= |a|
    ensures a[dropped..][more..] == a[dropped + more..]
  {
  }

  lemma ReconcileKeepsLedger(s: System)
    requires Ledger(s) && Enabled(s, BridgeReconcile)
    ensures Ledger(DoBridgeReconcile(s))
  {
    var consumed := Consumed(s.unconsumed, s.mode.pendingCount);
    var t := DoBridgeReconcile(s);
    DropPrefix(Accepted(s.run), s.dropped, consumed);
    assert Accepted(t.run) == Accepted(s.run);
    assert t.dropped == s.dropped + consumed == Reported(s);
  }

  // Draining moves the pending list from one side of the drained mark to the other.
  lemma DrainMoves(run: Run)
    requires run.cleared == []
    ensures
      var t := run.(pending := [], drained := run.drained + run.pending);
      && Accepted(t) == Accepted(run)
      && Accepted(run)[|run.drained|..] == run.pending
      && Accepted(t)[|t.drained|..] == []
  {
  }

  lemma DrainKeepsLedger(s: System)
    requires Ledger(s) && Enabled(s, KernelDrain)
    ensures Ledger(DoDrain(s))
  {
    var t := DoDrain(s);
    DrainMoves(s.run);
    assert Accepted(t.run) == Accepted(s.run);
    assert Outstanding(t) == [];
    assert Held(t) == Held(s);
  }

  lemma StopKeepsLedger(s: System)
    requires Ledger(s) && Enabled(s, KernelStop)
    ensures Ledger(DoStop(s))
  {
    assert Accepted(DoStop(s).run) == Accepted(s.run);
  }

  lemma StepKeepsLedger(s: System, step: Step)
    requires Ledger(s) && Enabled(s, step)
    ensures Ledger(Next(s, step))
  {
    match step
    case BridgeReceive(reply) => ReceiveKeepsLedger(s, reply);
    case BridgePush => PushKeepsLedger(s);
    case BridgeStart => StartKeepsLedger(s);
    case BridgePoll => PollKeepsLedger(s);
    case BridgeReconcile => ReconcileKeepsLedger(s);
    case BridgeStreamEnd => CompleteKeepsLedger(s);
    case KernelDrain => DrainKeepsLedger(s);
    case KernelStop => StopKeepsLedger(s);
    case _ =>
  }

  lemma {:induction false} RunKeepsLedger(s: System, steps: seq<Step>)
    requires Ledger(s) && Possible(s, steps)
    ensures Ledger(After(s, steps))
    decreases |steps|
  {
    if steps != [] {
      StepKeepsLedger(s, steps[0]);
      RunKeepsLedger(Next(s, steps[0]), steps[1..]);
    }
  }

  // In every run from the start, whatever the interleaving, the registry's
  // pending list is a suffix of what the bridge holds for the turn.
  lemma PendingIsSuffixOfMirror(steps: seq<Step>)
    requires Possible(INITIAL, steps)
    ensures
      var s := After(INITIAL, steps);
      Live(s.mode) ==> |s.run.pending| <= |Held(s)| && s.run.pending == Held(s)[|Held(s)| - |s.run.pending|..]
  {
    RunKeepsLedger(INITIAL, steps);
    var s := After(INITIAL, steps);
    if Live(s.mode) {
      var a := Accepted(s.run);
      assert a[|a| - |s.run.pending|..] == s.run.pending;
    }
  }

  // The fate of a turn's prompts at the moment it completes. The prompts its
  // run drained followed by those carried over are exactly the accepted ones, in
  // order and once each, if and only if the last drain was followed by a
  // registry reading and no reading counted discarded prompts. Otherwise the
  // stretch between what was drained and what was dropped is lost or repeated.
  lemma CompletedTurnFate(steps: seq<Step>)
    requires Possible(INITIAL, steps) && After(INITIAL, steps).mode.Running?
    ensures
      var s := After(INITIAL, steps);
      var accepted, drained, carried := Accepted(s.run), s.run.drained, Held(Complete(s));
      && (drained + carried == accepted <==> !s.run.drainUnreported && !s.run.clearReported)
      && (s.run.clearReported <==> |drained| < s.dropped)
      && (s.run.drainUnreported <==> s.dropped < |drained|)
      && s.dropped <= |accepted| && drained <= accepted
      && carried == accepted[s.dropped..]
      && (s.run.clearReported ==> drained + accepted[|drained|..s.dropped] + carried == accepted)
      && (s.run.drainUnreported ==> drained + carried == drained + accepted[s.dropped..|drained|] + accepted[|drained|..])
  {
    RunKeepsLedger(INITIAL, steps);
    var s := After(INITIAL, steps);
    assert Held(Complete(s)) == s.unconsumed;
    CarriedOver(Accepted(s.run), s.run.drained, s.dropped);
  }

  lemma CarriedOver<T>(a: seq<T>, d: seq<T>, dropped: nat)
    requires d <= a && dropped <= |a|
    ensures d + a[dropped..] == a <==> dropped == |d|
    ensures |d| <= dropped ==> d + a[|d|..dropped] + a[dropped..] == a
    ensures dropped <= |d| ==> d + a[dropped..] == d + a[dropped..|d|] + a[|d|..]
  {
    if dropped < |d| {
      assert a[dropped..] == a[dropped..|d|] + a[|d|..];
    }
    if dropped != |d| {
      assert |d + a[dropped..]| != |a|;
    }
  }

  // As long as every completed turn dropped what it drained, the model has been
  // given the received prompts in order of arrival, none missing and none twice,
  // with the outstanding ones still to come.
  lemma CleanRunsFeedInOrder(steps: seq<Step>)
    requires Possible(INITIAL, steps)
    ensures
      var s := After(INITIAL, steps);
      s.clean ==> s.received == s.fed + Outstanding(s)
  {
    RunKeepsLedger(INITIAL, steps);
  }
}
