// When the prompts received are all different, their fate can be read off: the
// history is clean exactly when the model is given each of them once, in order.
module SteeringFate {
  import opened Prelude
  import opened ClientTurn
  import opened SteeringModel
  import opened SteeringLedger

  // Received, and neither given to the model nor still to come.
  predicate Missing(s: System, p: string)
  {
    p in s.received && p !in s.fed && p !in Outstanding(s)
  }

  // Given to the model twice, or given once and about to be given again.
  predicate Twice(s: System, p: string)
  {
    multiset(s.fed)[p] >= 2 || (s.mode.Starting? && p in s.fed && p in s.mode.prompts)
  }

  predicate Astray(s: System, p: string)
  {
    Missing(s, p) || Twice(s, p)
  }

  // What is given or to come was received, and what a live run still has to give
  // is new.
  predicate Known(s: System)
  {
    && (forall p | p in s.fed :: p in s.received)
    && (forall p | p in Outstanding(s) :: p in s.received)
    && (Live(s.mode) ==>
          && NoDuplicates(Outstanding(s))
          && (forall p | p in Outstanding(s) :: p !in s.fed)
          && (forall p | p in s.run.drained :: p in s.fed))
  }

  ghost predicate Traced(s: System)
  {
    Known(s) && (!s.clean ==> exists p :: Astray(s, p))
  }

  // ---- steps ----

  // Nothing that the history speaks of has changed.
  predicate SameBooks(s: System, t: System)
  {
    && t.received == s.received && t.fed == s.fed && t.clean == s.clean
    && Outstanding(t) == Outstanding(s) && Live(t.mode) == Live(s.mode)
    && t.mode.Starting? == s.mode.Starting?
    && (s.mode.Starting? ==> t.mode == s.mode)
    && (Live(s.mode) ==> t.run.drained == s.run.drained)
  }

  // Whatever is astray stays so.
  ghost predicate StaysAstray(s: System, t: System)
  {
    forall p | Astray(s, p) :: Astray(t, p)
  }

  lemma SameBooksTraced(s: System, t: System)
    requires Traced(s) && SameBooks(s, t)
    ensures Traced(t)
  {
    assert StaysAstray(s, t);
  }

  lemma StillTraced(s: System, t: System)
    requires Traced(s) && Known(t) && StaysAstray(s, t) && t.clean == s.clean
    ensures Traced(t)
  {
  }

  lemma NewIsDistinct(received: seq<string>, p: string)
    requires NoDuplicates(received + [p])
    ensures p !in received
  {
    var all := received + [p];
    assert forall i | 0 <= i < |received| :: all[i] == received[i];
    assert all[|received|] == p;
  }

  lemma SteeredTraced(s: System, p: string)
    requires Traced(s) && Ledger(s) && s.mode.Running? && NoDuplicates(s.received + [p])
    ensures Traced(s.(mode := Submitting(p), received := s.received + [p], run := s.run.(pending := s.run.pending + [p])))
  {
    var t := s.(mode := Submitting(p), received := s.received + [p], run := s.run.(pending := s.run.pending + [p]));
    NewIsDistinct(s.received, p);
    AcceptedGrows(s.run, p, |s.run.drained|);
    assert Outstanding(t) == Outstanding(s) + [p];
    StillTraced(s, t);
  }

  lemma ReceiveTraced(s: System, reply: string)
    requires Traced(s) && Ledger(s) && Enabled(s, BridgeReceive(reply))
    requires NoDuplicates(DoBridgeReceive(s, reply).received)
    ensures Traced(DoBridgeReceive(s, reply))
  {
    var f, t := s.c2s[0], DoBridgeReceive(s, reply);
    if Slash(f.text) && (s.mode.Running? || !f.steering) {
      SameBooksTraced(s, t);
    } else if s.mode.Running? {
      var u := s.(mode := Submitting(f.text), received := s.received + [f.text],
                  run := s.run.(pending := s.run.pending + [f.text]));
      SteeredTraced(s, f.text);
      SameBooksTraced(u, t);
    } else {
      NewIsDistinct(s.received, f.text);
      StillTraced(s, t);
    }
  }

  lemma StartTraced(s: System)
    requires Traced(s) && s.mode.Starting?
    ensures Traced(DoBridgeStart(s))
  {
    var t := DoBridgeStart(s);
    assert multiset(t.fed) == multiset(s.fed) + multiset(s.mode.prompts);
    assert Outstanding(t) == [];
    StillTraced(s, t);
  }

  lemma DrainKnown(s: System)
    requires Known(s) && Ledger(s) && Enabled(s, KernelDrain)
    ensures Known(DoDrain(s)) && Outstanding(s) == s.run.pending && Outstanding(DoDrain(s)) == []
  {
    DrainMoves(s.run);
  }

  lemma DrainTraced(s: System)
    requires Traced(s) && Ledger(s) && Enabled(s, KernelDrain)
    ensures Traced(DoDrain(s))
  {
    var t := DoDrain(s);
    DrainKnown(s);
    forall p | Astray(s, p) ensures Astray(t, p) {
      MoreTwice(s.fed, s.run.pending, p);
    }
    StillTraced(s, t);
  }

  lemma MoreTwice(fed: seq<string>, more: seq<string>, p: string)
    ensures multiset(fed + more)[p] >= multiset(fed)[p]
  {
  }

  lemma StopTraced(s: System)
    requires Traced(s) && Enabled(s, KernelStop)
    ensures Traced(DoStop(s))
  {
    assert Accepted(DoStop(s).run) == Accepted(s.run);
    SameBooksTraced(s, DoStop(s));
  }

  lemma AcceptedSplits(run: Run)
    ensures Accepted(run) == run.drained + Accepted(run)[|run.drained|..]
    ensures Accepted(run)[..|run.drained|] == run.drained
  {
  }

  // A completed turn that did not drop what it drained has lost the first of the
  // prompts dropped too many, or carries the first of those dropped too few over.
  lemma UncleanGoesAstray(s: System)
    requires Known(s) && Ledger(s) && s.mode.Running? && s.dropped != |s.run.drained|
    ensures exists p :: Astray(Complete(s), p)
  {
    var accepted, n, t := Accepted(s.run), |s.run.drained|, Complete(s);
    AcceptedSplits(s.run);
    assert Outstanding(t) == accepted[s.dropped..];
    if s.dropped < n {
      var p := s.run.drained[s.dropped];
      assert accepted[s.dropped..][0] == p;
      assert Astray(t, p);
    } else {
      var p := Outstanding(s)[0];
      assert accepted[s.dropped..] == Outstanding(s)[s.dropped - n..];
      assert p !in Outstanding(s)[s.dropped - n..];
      assert Astray(t, p);
    }
  }

  lemma CompleteKnown(s: System)
    requires Known(s) && Ledger(s) && s.mode.Running?
    ensures Known(Complete(s)) && Outstanding(Complete(s)) == Accepted(s.run)[s.dropped..]
  {
    var accepted := Accepted(s.run);
    AcceptedSplits(s.run);
    forall p | p in accepted[s.dropped..] ensures p in s.received {
      assert p in accepted;
      assert p in s.run.drained + Outstanding(s);
    }
  }

  lemma CompleteTraced(s: System)
    requires Traced(s) && Ledger(s) && s.mode.Running?
    ensures Traced(Complete(s))
  {
    CompleteKnown(s);
    if s.dropped != |s.run.drained| {
      UncleanGoesAstray(s);
    } else {
      assert Outstanding(Complete(s)) == Outstanding(s);
      StillTraced(s, Complete(s));
    }
  }

  lemma PollTraced(s: System)
    requires Traced(s) && Ledger(s) && Enabled(s, BridgePoll)
    ensures Traced(DoBridgePoll(s))
  {
    if s.run.events[0].Final? {
      var u := s.(run := s.run.(events := s.run.events[1..]), s2c := s.s2c + [Forward(s.run.events[0])]);
      SameBooksTraced(s, u);
      CompleteTraced(u);
    } else {
      SameBooksTraced(s, DoBridgePoll(s));
    }
  }

  lemma StepTraced(s: System, step: Step)
    requires Traced(s) && Ledger(s) && Enabled(s, step) && NoDuplicates(Next(s, step).received)
    ensures Traced(Next(s, step))
  {
    match step
    case BridgeReceive(reply) => ReceiveTraced(s, reply);
    case BridgeStart => StartTraced(s);
    case BridgePoll => PollTraced(s);
    case BridgeStreamEnd => CompleteTraced(s);
    case KernelDrain => DrainTraced(s);
    case KernelStop => StopTraced(s);
    case _ => SameBooksTraced(s, Next(s, step));
  }

  // ---- runs ----

  lemma {:induction false} ReceivedGrows(s: System, steps: seq<Step>)
    requires Possible(s, steps)
    ensures s.received <= After(s, steps).received
    decreases |steps|
  {
    if steps != [] {
      ReceivedGrows(Next(s, steps[0]), steps[1..]);
    }
  }

  lemma PrefixIsDistinct(a: seq<string>, b: seq<string>)
    requires a <= b && NoDuplicates(b)
    ensures NoDuplicates(a)
  {
    assert forall i | 0 <= i < |a| :: a[i] == b[i];
  }

  lemma {:induction false} RunTraced(s: System, steps: seq<Step>)
    requires Traced(s) && Ledger(s) && Possible(s, steps) && NoDuplicates(After(s, steps).received)
    ensures Traced(After(s, steps)) && Ledger(After(s, steps))
    decreases |steps|
  {
    if steps != [] {
      var next := Next(s, steps[0]);
      ReceivedGrows(next, steps[1..]);
      PrefixIsDistinct(next.received, After(next, steps[1..]).received);
      StepTraced(s, steps[0]);
      StepKeepsLedger(s, steps[0]);
      RunTraced(next, steps[1..]);
    }
  }

  lemma {:induction false} DistinctOnce(a: seq<string>, p: string)
    requires NoDuplicates(a)
    ensures multiset(a)[p] <= 1
  {
    if a != [] {
      var front, last := a[..|a| - 1], a[|a| - 1];
      DistinctOnce(front, p);
      assert a == front + [last];
      assert last !in front;
    }
  }

  lemma AstrayIsNotInOrder(s: System, p: string)
    requires NoDuplicates(s.received) && Astray(s, p)
    ensures s.received != s.fed + Outstanding(s)
  {
    DistinctOnce(s.received, p);
    assert multiset(s.fed + Outstanding(s)) == multiset(s.fed) + multiset(Outstanding(s));
    assert p in s.fed ==> multiset(s.fed)[p] >= 1;
    assert p in s.fed + Outstanding(s) <==> p in s.fed || p in Outstanding(s);
  }

  lemma CleanExactlyWhen(s: System)
    requires Traced(s) && Ledger(s) && NoDuplicates(s.received)
    ensures s.clean <==> s.received == s.fed + Outstanding(s)
    ensures s.clean <==> forall p :: !Astray(s, p)
  {
    forall p | Astray(s, p) ensures s.received != s.fed + Outstanding(s) {
      AstrayIsNotInOrder(s, p);
    }
  }

  lemma StartIsTraced()
    ensures Traced(INITIAL) && Ledger(INITIAL)
  {
  }

  // Each completed turn dropped what it drained if and only if the model is given
  // the prompts received in order, none missing and none twice; otherwise some
  // prompt is neither given nor to come, or is given twice.
  lemma CleanExactlyWhenFedInOrder(steps: seq<Step>)
    requires Possible(INITIAL, steps) && NoDuplicates(After(INITIAL, steps).received)
    ensures
      var s := After(INITIAL, steps);
      && (s.clean <==> s.received == s.fed + Outstanding(s))
      && (s.clean <==> forall p :: !Astray(s, p))
  {
    StartIsTraced();
    RunTraced(INITIAL, steps);
    CleanExactlyWhen(After(INITIAL, steps));
  }
}
