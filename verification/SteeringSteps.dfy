// Which steps of a plain run keep the agreement: all that the guard allows, and
// no others.
module SteeringSteps {
  import opened Prelude
  import opened Notice
  import opened ClientTurn
  import opened SteeringModel
  import opened SteeringLedger
  import opened SteeringAgreement

  // The agreement depends on nothing but these parts of the state.
  lemma SameParts(s: System, t: System)
    requires Agreement(s)
    requires t.client == s.client && t.c2s == s.c2s && t.mode.Idle? == s.mode.Idle? && Live(t.mode) == Live(s.mode)
    requires Held(t) == Held(s) && t.s2c == s.s2c && t.inflight == s.inflight
    ensures Agreement(t)
  {
  }

  // ---- frames ----

  lemma QueuedNoticeIsSilent()
    ensures AppliedCount(Text(QUEUED)) == []
  {
    assert APPLIED[9] == 'a' && QUEUED[9] == 'q';
  }

  lemma AppliedNoticeCounts(n: nat)
    requires 0 < n < USIZE_LIMIT
    ensures AppliedCount(Text(SteeringNotice(APPLIED, n))) == [n]
  {
    NoticeRoundTrip(APPLIED, n);
  }

  lemma AppliedHead(s2c: seq<ServerFrame>)
    requires s2c != []
    ensures AppliedCounts(s2c) == AppliedCount(s2c[0]) + AppliedCounts(s2c[1..])
  {
  }

  lemma SilentSnoc(s2c: seq<ServerFrame>, f: ServerFrame)
    requires AppliedCount(f) == []
    ensures AppliedCounts(s2c + [f]) == AppliedCounts(s2c)
  {
    FlatMapSnoc(s2c, f, AppliedCount);
  }

  lemma CountsSnoc(s2c: seq<ServerFrame>, inflight: seq<seq<string>>, f: ServerFrame, batch: seq<string>)
    requires CountsAgree(s2c, inflight) && batch != [] && AppliedCount(f) == [|batch|]
    ensures CountsAgree(s2c + [f], inflight + [batch])
  {
    FlatMapSnoc(s2c, f, AppliedCount);
    var counts := AppliedCounts(s2c);
    forall i | 0 <= i < |inflight| + 1
      ensures (inflight + [batch])[i] != [] && (counts + [|batch|])[i] == |(inflight + [batch])[i]|
    {
      assert i < |inflight| ==> (inflight + [batch])[i] == inflight[i] && (counts + [|batch|])[i] == counts[i];
    }
  }

  lemma CountsTail(s2c: seq<ServerFrame>, inflight: seq<seq<string>>)
    requires CountsAgree(s2c, inflight) && s2c != []
    ensures AppliedCount(s2c[0]) == [] ==> CountsAgree(s2c[1..], inflight)
    ensures AppliedCount(s2c[0]) != [] ==>
      && inflight != [] && AppliedCount(s2c[0]) == [|inflight[0]|] && inflight[0] != []
      && CountsAgree(s2c[1..], inflight[1..])
  {
    AppliedHead(s2c);
    var counts := AppliedCounts(s2c);
    if AppliedCount(s2c[0]) != [] {
      assert counts[0] == |inflight[0]| && counts[1..] == AppliedCounts(s2c[1..]);
      forall i | 0 <= i < |inflight| - 1
        ensures inflight[1..][i] != [] && counts[1..][i] == |inflight[1..][i]|
      {
        assert inflight[1..][i] == inflight[i + 1] && counts[1..][i] == counts[i + 1];
      }
    }
  }

  // ---- the work in flight ----

  lemma WorkHead(c2s: seq<ClientFrame>)
    requires c2s != []
    ensures IsCommand(c2s[0]) ==> Work(c2s) == Work(c2s[1..])
    ensures !IsCommand(c2s[0]) ==> Work(c2s) == [c2s[0]] + Work(c2s[1..])
  {
  }

  lemma WorkSnoc(c2s: seq<ClientFrame>, f: ClientFrame)
    ensures Work(c2s + [f]) == if IsCommand(f) then Work(c2s) else Work(c2s) + [f]
  {
    FlatMapSnoc(c2s, f, WorkOf);
  }

  lemma MarkedSnoc(c2s: seq<ClientFrame>, f: ClientFrame)
    requires Marked(c2s) && (f.steering ==> !Slash(f.text))
    ensures Marked(c2s + [f])
  {
  }

  lemma MarkedTail(c2s: seq<ClientFrame>)
    requires Marked(c2s) && c2s != []
    ensures Marked(c2s[1..])
  {
  }

  lemma TextsSnoc(w: seq<ClientFrame>, f: ClientFrame)
    ensures Texts(w + [f]) == Texts(w) + [f.text]
  {
  }

  lemma TextsHead(w: seq<ClientFrame>)
    requires w != []
    ensures Texts(w) == [w[0].text] + Texts(w[1..])
  {
  }

  lemma AppendText(a: seq<string>, b: seq<string>, c: seq<string>, x: string)
    ensures a + b + (c + [x]) == a + b + c + [x]
  {
  }

  // One more steering prompt enters the queue and the channel.
  lemma SteeringJoins(queued: seq<string>, inflight: seq<seq<string>>, held: seq<string>,
                      w: seq<ClientFrame>, line: string)
    requires QueuesAgree(queued, inflight, held, w)
    ensures QueuesAgree(queued + [line], inflight, held, w + [Prompt(line, true)])
  {
    var f := Prompt(line, true);
    assert SteeringPart(w + [f]) == SteeringPart(w) + [f];
    TextsSnoc(SteeringPart(w), f);
    AppendText(Flatten(inflight), held, Texts(SteeringPart(w)), line);
  }

  lemma SteeringArrives(w: seq<ClientFrame>, idle: bool, line: string)
    requires ArrivalsHold(w, idle)
    ensures ArrivalsHold(w + [Prompt(line, true)], idle)
    ensures OpensWithPlain(w + [Prompt(line, true)]) == OpensWithPlain(w)
  {
  }

  // ---- the client submits ----

  lemma NotBlocking(line: string)
    requires Trimmed(line) && line != "/compact"
    ensures BlockingCommandStatus(line) == None
  {
    TrimIdentity(line);
  }

  lemma SubmitSteeringAgrees(s: System, line: string, now: nat)
    requires Agreement(s) && CanQueueSteering(s.client, line)
    ensures Agreement(s.(client := Submitted(s.client, line, None, now), c2s := s.c2s + [Prompt(line, true)]))
  {
    var f, w := Prompt(line, true), Work(s.c2s);
    WorkSnoc(s.c2s, f);
    MarkedSnoc(s.c2s, f);
    SteeringJoins(s.client.queued, s.inflight, Held(s), w, line);
    SteeringArrives(w, s.mode.Idle?, line);
  }

  lemma SubmitCommandAgrees(s: System, line: string, now: nat)
    requires Agreement(s) && Slash(line)
    ensures Agreement(s.(client := Submitted(s.client, line, None, now), c2s := s.c2s + [Prompt(line, false)]))
  {
    WorkSnoc(s.c2s, Prompt(line, false));
    MarkedSnoc(s.c2s, Prompt(line, false));
  }

  // A plain prompt leaves a client that is not busy.
  lemma SubmitPlainAgrees(s: System, line: string, now: nat)
    requires Agreement(s) && !Slash(line) && !s.client.busy
    ensures Agreement(s.(client := Submitted(s.client, line, None, now), c2s := s.c2s + [Prompt(line, false)]))
  {
    SettledWithoutFinal(s.s2c, false);
    PlainLeaves(s, line, now);
  }

  lemma PlainLeaves(s: System, line: string, now: nat)
    requires Agreement(s) && !Slash(line) && !CanQueueSteering(s.client, line) && RoomForPlain(s)
    ensures Agreement(s.(client := Submitted(s.client, line, None, now), c2s := s.c2s + [Prompt(line, false)]))
  {
    var f := Prompt(line, false);
    WorkSnoc(s.c2s, f);
    MarkedSnoc(s.c2s, f);
    assert Work(s.c2s + [f]) == [f] && SteeringPart([f]) == [] == SteeringPart(Work(s.c2s));
  }

  // A plain prompt behind other work, or to a bridge at work, or with a `final`
  // in flight that no notice follows, is out of place.
  lemma PlainOutOfPlace(s: System, f: ClientFrame, client: Turn)
    requires Agreement(s) && !Slash(f.text) && !f.steering
    requires Agreement(s.(client := client, c2s := s.c2s + [f]))
    ensures RoomForPlain(s)
  {
    var w := Work(s.c2s);
    WorkSnoc(s.c2s, f);
    assert (w + [f])[|w|] == f;
    if w == [] {
      assert w + [f] == [f];
      assert OpensWithPlain([f]);
    }
  }

  // Submitting keeps the agreement exactly under the guard.
  lemma SubmitAgrees(s: System, line: string, now: nat)
    requires Agreement(s) && Enabled(s, Submit(line, now)) && Plain(Submit(line, now))
    ensures Agreement(DoSubmit(s, line, now)) <==> Harmless(s, Submit(line, now))
  {
    NotBlocking(line);
    if CanQueueSteering(s.client, line) {
      SubmitSteeringAgrees(s, line, now);
    } else if Slash(line) {
      SubmitCommandAgrees(s, line, now);
    } else if !s.client.busy {
      SubmitPlainAgrees(s, line, now);
    } else {
      var t := Submitted(s.client, line, None, now);
      if RoomForPlain(s) {
        PlainLeaves(s, line, now);
      } else if Agreement(s.(client := t, c2s := s.c2s + [Prompt(line, false)])) {
        PlainOutOfPlace(s, Prompt(line, false), t);
      }
    }
  }

  // ---- the client receives ----

  lemma PopPrefix(batch: seq<string>, a: seq<string>, b: seq<string>, c: seq<string>)
    ensures (batch + a + b + c)[|batch|..] == a + b + c
    ensures batch + a + b + c == batch + (a + b + c)
  {
  }

  // The first batch in flight is exactly the head of the queue.
  lemma QueuePops(queued: seq<string>, inflight: seq<seq<string>>, held: seq<string>, w: seq<ClientFrame>)
    requires QueuesAgree(queued, inflight, held, w) && inflight != []
    ensures |inflight[0]| <= |queued| && queued == inflight[0] + queued[|inflight[0]|..]
    ensures QueuesAgree(queued[|inflight[0]|..], inflight[1..], held, w)
  {
    assert Flatten(inflight) == inflight[0] + Flatten(inflight[1..]);
    PopPrefix(inflight[0], Flatten(inflight[1..]), held, Texts(SteeringPart(w)));
  }

  lemma AcknowledgeApplies(s: System)
    requires s.s2c != [] && s.inflight != [] && AppliedCount(s.s2c[0]) == [|s.inflight[0]|]
    requires |s.inflight[0]| <= |s.client.queued|
    ensures DoClientReceive(s)
         == s.(client := s.client.(queued := s.client.queued[|s.inflight[0]|..]),
               s2c := s.s2c[1..], inflight := s.inflight[1..])
  {
  }

  // Reading a notice pops exactly the batch it was printed for.
  lemma AcknowledgePops(s: System)
    requires Agreement(s) && s.s2c != [] && AppliedCount(s.s2c[0]) != []
    ensures s.inflight != [] && s.client.queued == s.inflight[0] + DoClientReceive(s).client.queued
    ensures DoClientReceive(s).inflight == s.inflight[1..]
  {
    CountsTail(s.s2c, s.inflight);
    QueuePops(s.client.queued, s.inflight, Held(s), Work(s.c2s));
    AcknowledgeApplies(s);
  }

  lemma AcknowledgedLeaves(s: System, queued: seq<string>)
    requires Agreement(s) && s.s2c != [] && s.inflight != [] && s.client.busy
    requires CountsAgree(s.s2c[1..], s.inflight[1..])
    requires QueuesAgree(queued, s.inflight[1..], Held(s), Work(s.c2s))
    ensures Agreement(s.(client := s.client.(queued := queued), s2c := s.s2c[1..], inflight := s.inflight[1..]))
  {
  }

  lemma AcknowledgeAgrees(s: System)
    requires Agreement(s) && s.s2c != [] && AppliedCount(s.s2c[0]) != []
    ensures Agreement(DoClientReceive(s))
  {
    CountsTail(s.s2c, s.inflight);
    QueuePops(s.client.queued, s.inflight, Held(s), Work(s.c2s));
    AcknowledgeApplies(s);
    AcknowledgedLeaves(s, s.client.queued[|s.inflight[0]|..]);
  }

  lemma FlattenNonEmpty(batches: seq<seq<string>>)
    ensures batches != [] && batches[0] != [] ==> Flatten(batches) != []
  {
    if batches != [] {
      assert Flatten(batches) == batches[0] + Flatten(batches[1..]);
    }
  }

  lemma EmptyQueueMeansNothingInFlight(s: System)
    requires Agreement(s) && s.client.queued == []
    ensures s.inflight == [] && Held(s) == [] && SteeringPart(Work(s.c2s)) == []
  {
    FlattenNonEmpty(s.inflight);
    assert |Texts(SteeringPart(Work(s.c2s)))| == 0;
  }

  lemma FinalAgrees(s: System)
    requires Agreement(s) && ShapeHolds(s) && s.s2c != [] && s.s2c[0] == Forward(Final)
    ensures Agreement(s.(client := FinishActiveTurn(s.client), s2c := s.s2c[1..]))
  {
    CountsTail(s.s2c, s.inflight);
    if s.client.queued == [] {
      EmptyQueueMeansNothingInFlight(s);
      assert AppliedCounts(s.s2c[1..]) == [];
    }
  }

  // A frame that is no notice of consumption, no `final` and no end of a
  // compaction leaves the queue and the busy flag alone.
  lemma OtherFrameApplies(t: Turn, f: ServerFrame)
    requires AppliedCount(f) == [] && f != Forward(Final) && !EndsCompaction(t, f)
    ensures ClientApply(t, f).queued == t.queued && ClientApply(t, f).busy == t.busy
  {
  }

  // Dropping a silent frame from the channel.
  lemma SilentFrameLeaves(s: System, client: Turn)
    requires Agreement(s) && s.s2c != [] && AppliedCount(s.s2c[0]) == []
    requires client.queued == s.client.queued
    requires client.busy || client.busy == s.client.busy || (MayGoIdle(s) && client.queued == [])
    ensures Agreement(s.(client := client, s2c := s.s2c[1..]))
  {
    CountsTail(s.s2c, s.inflight);
  }

  // Reading what ends a compaction makes the client idle when nothing is queued.
  lemma CompactionEnds(s: System)
    requires s.s2c != [] && EndsCompaction(s.client, s.s2c[0])
    ensures DoClientReceive(s) == s.(client := FinishActiveTurn(s.client), s2c := s.s2c[1..])
  {
  }

  lemma CompactionEndAgrees(s: System)
    requires Agreement(s) && s.s2c != [] && EndsCompaction(s.client, s.s2c[0])
    ensures Agreement(DoClientReceive(s)) <==> MayGoIdle(s)
  {
    CompactionEnds(s);
    if MayGoIdle(s) {
      SilentFrameLeaves(s, FinishActiveTurn(s.client));
    } else {
      assert s.s2c == [s.s2c[0]] + s.s2c[1..];
    }
  }

  // Reading a frame keeps the agreement exactly under the guard.
  lemma ClientReceiveAgrees(s: System)
    requires Agreement(s) && ShapeHolds(s) && s.s2c != []
    ensures Agreement(DoClientReceive(s)) <==> Harmless(s, ClientReceive)
  {
    var f := s.s2c[0];
    if f == Forward(Final) {
      FinalAgrees(s);
    } else if AppliedCount(f) != [] {
      AcknowledgeAgrees(s);
    } else if EndsCompaction(s.client, f) {
      CompactionEndAgrees(s);
    } else {
      OtherFrameApplies(s.client, f);
      SilentFrameLeaves(s, ClientApply(s.client, f));
    }
  }

  // ---- the bridge ----

  // Sending a frame that is neither a notice of consumption nor a `final`.
  lemma SendQuietFrame(s: System, f: ServerFrame)
    requires Agreement(s)
    requires AppliedCount(f) == [] && f != Forward(Final)
    ensures Agreement(s.(s2c := s.s2c + [f]))
  {
    SilentSnoc(s.s2c, f);
    var quiet := Quiet(Live(s.mode), Work(s.c2s));
    SettledSnoc(s.s2c, f, quiet, quiet);
  }

  lemma EmptyReplyIsPlain()
    ensures Plain(BridgeReceive(""))
  {
  }

  lemma CommandAgrees(s: System, reply: string)
    requires Agreement(s) && Enabled(s, BridgeReceive(reply)) && NoticeCount(reply, APPLIED).None?
    requires IsCommand(s.c2s[0])
    ensures Agreement(DoBridgeReceive(s, reply))
  {
    WorkHead(s.c2s);
    MarkedTail(s.c2s);
    SendQuietFrame(s.(c2s := s.c2s[1..]), Text(reply));
  }

  lemma Shift(a: seq<string>, held: seq<string>, text: string, rest: seq<string>)
    ensures a + held + ([text] + rest) == a + (held + [text]) + rest
  {
  }

  // The first steering prompt in flight passes into the bridge's hands.
  lemma TakeSteering(queued: seq<string>, inflight: seq<seq<string>>, held: seq<string>, w: seq<ClientFrame>)
    requires QueuesAgree(queued, inflight, held, w) && w != [] && forall i | 0 <= i < |w| :: w[i].steering
    ensures QueuesAgree(queued, inflight, held + [w[0].text], w[1..])
  {
    TextsHead(w);
    Shift(Flatten(inflight), held, w[0].text, Texts(w[1..]));
    assert w[1..] != [] ==> w[1..][0] == w[1];
    assert SteeringPart(w) == w && SteeringPart(w[1..]) == w[1..];
  }

  lemma ArrivalsTail(w: seq<ClientFrame>, idle: bool)
    requires ArrivalsHold(w, idle) && w != []
    ensures ArrivalsHold(w[1..], false) && !OpensWithPlain(w[1..])
    ensures w[0].steering ==> forall i | 0 <= i < |w| :: w[i].steering
    ensures !w[0].steering ==> SteeringPart(w) == SteeringPart(w[1..])
  {
    assert forall i | 0 <= i < |w| - 1 :: w[1..][i] == w[i + 1];
  }

  lemma SteeringPromptAgrees(s: System, mode: Mode, received: seq<string>, run: Run)
    requires Agreement(s) && s.c2s != [] && !IsCommand(s.c2s[0]) && s.c2s[0].steering
    requires (mode.Submitting? || mode.Starting?) && Live(mode) == Live(s.mode)
    requires Held(s.(mode := mode)) == Held(s) + [s.c2s[0].text]
    ensures Agreement(s.(c2s := s.c2s[1..], mode := mode, received := received, run := run))
  {
    WorkHead(s.c2s);
    var w := Work(s.c2s);
    assert w[1..] == Work(s.c2s[1..]);
    ArrivalsTail(w, s.mode.Idle?);
    TakeSteering(s.client.queued, s.inflight, Held(s), w);
  }

  lemma PlainPromptAgrees(s: System, received: seq<string>, fed: seq<string>)
    requires Agreement(s) && s.mode.Idle? && s.unconsumed == []
    requires s.c2s != [] && !IsCommand(s.c2s[0]) && !s.c2s[0].steering
    ensures Agreement(s.(c2s := s.c2s[1..], mode := Running, dropped := 0, run := FRESH_RUN,
                         received := received, fed := fed))
  {
    WorkHead(s.c2s);
    var w := Work(s.c2s);
    assert w[1..] == Work(s.c2s[1..]);
    ArrivalsTail(w, true);
  }

  lemma PromptAgrees(s: System, reply: string)
    requires Agreement(s) && ShapeHolds(s) && Enabled(s, BridgeReceive(reply)) && !IsCommand(s.c2s[0])
    ensures Agreement(DoBridgeReceive(s, reply))
  {
    WorkHead(s.c2s);
    assert Work(s.c2s)[0] == s.c2s[0];
    var t := DoBridgeReceive(s, reply);
    if s.c2s[0].steering {
      SteeringPromptAgrees(s, t.mode, t.received, t.run);
    } else {
      PlainPromptAgrees(s, t.received, t.fed);
    }
  }

  // Mirroring the submitted prompt leaves what the bridge holds as it was.
  lemma MirrorAgrees(s: System)
    requires Agreement(s) && s.mode.Submitting?
    ensures Agreement(s.(mode := Running, unconsumed := s.unconsumed + [s.mode.prompt]))
  {
    SameParts(s, s.(mode := Running, unconsumed := s.unconsumed + [s.mode.prompt]));
  }

  lemma PushAgrees(s: System)
    requires Agreement(s) && s.mode.Submitting?
    ensures Agreement(DoBridgePush(s))
  {
    MirrorAgrees(s);
    QueuedNoticeIsSilent();
    SendQuietFrame(s.(mode := Running, unconsumed := s.unconsumed + [s.mode.prompt]), Text(QUEUED));
  }

  // ---- acknowledging ----

  lemma HandOver(a: seq<string>, batch: seq<string>, rest: seq<string>, c: seq<string>)
    ensures a + (batch + rest) + c == (a + batch) + rest + c
  {
  }

  // A batch passes from the bridge's hands to a notice in flight.
  lemma QueueHandsOver(queued: seq<string>, inflight: seq<seq<string>>, batch: seq<string>,
                       rest: seq<string>, w: seq<ClientFrame>)
    requires QueuesAgree(queued, inflight, batch + rest, w)
    ensures QueuesAgree(queued, inflight + [batch], rest, w)
  {
    FlatMapSnoc(inflight, batch, Batch);
    HandOver(Flatten(inflight), batch, rest, Texts(SteeringPart(w)));
  }

  // The bridge acknowledges a batch and keeps the rest in its hands.
  lemma AcknowledgeSent(s: System, t: System, batch: seq<string>)
    requires Agreement(s) && 0 < |batch| < USIZE_LIMIT && Held(s) == batch + Held(t)
    requires t.client == s.client && t.c2s == s.c2s && t.mode.Running? && !s.mode.Idle?
    requires t.s2c == s.s2c + [Text(SteeringNotice(APPLIED, |batch|))] && t.inflight == s.inflight + [batch]
    ensures Agreement(t)
  {
    var f := Text(SteeringNotice(APPLIED, |batch|));
    AppliedNoticeCounts(|batch|);
    CountsSnoc(s.s2c, s.inflight, f, batch);
    SettledSnoc(s.s2c, f, Quiet(Live(s.mode), Work(s.c2s)), false);
    QueueHandsOver(s.client.queued, s.inflight, batch, Held(t), Work(s.c2s));
  }

  lemma StartAgrees(s: System)
    requires Agreement(s) && ShapeHolds(s) && s.mode.Starting?
    ensures Agreement(DoBridgeStart(s))
  {
    AcknowledgeSent(s, DoBridgeStart(s), s.mode.prompts);
  }

  // Taking an event out of the buffer, back in the running mode.
  lemma EventTaken(s: System)
    requires Agreement(s) && (s.mode.Running? || s.mode.Reconciling?) && s.run.events != []
    ensures Agreement(s.(mode := Running, run := s.run.(events := s.run.events[1..])))
  {
  }

  // The state after the pops, before the event itself is forwarded.
  function Popped(s: System, consumed: nat): System
    requires 0 < consumed <= |s.unconsumed|
  {
    s.(unconsumed := s.unconsumed[consumed..], dropped := s.dropped + consumed,
       s2c := s.s2c + [Text(SteeringNotice(APPLIED, consumed))],
       inflight := s.inflight + [s.unconsumed[..consumed]])
  }

  lemma PoppedAgrees(s: System, consumed: nat)
    requires Agreement(s) && s.mode.Running? && 0 < consumed <= |s.unconsumed| < USIZE_LIMIT
    ensures Agreement(Popped(s, consumed))
  {
    assert s.unconsumed == s.unconsumed[..consumed] + s.unconsumed[consumed..];
    AcknowledgeSent(s, Popped(s, consumed), s.unconsumed[..consumed]);
  }

  lemma ReconcileAgrees(s: System)
    requires Agreement(s) && ShapeHolds(s) && s.mode.Reconciling?
    ensures Agreement(DoBridgeReconcile(s))
  {
    var e, consumed := s.run.events[0], Consumed(s.unconsumed, s.mode.pendingCount);
    var s1 := s.(mode := Running, run := s.run.(events := s.run.events[1..]));
    EventTaken(s);
    if consumed == 0 {
      SendQuietFrame(s1, Forward(e));
    } else {
      PoppedAgrees(s1, consumed);
      SendQuietFrame(Popped(s1, consumed), Forward(e));
    }
  }

  // ---- turns end ----

  lemma CompleteAgrees(s: System)
    requires Agreement(s) && s.mode.Running?
    ensures Agreement(Complete(s))
  {
    SettledWeaken(s.s2c, Quiet(false, Work(s.c2s)));
  }

  // The turn's `final` is sent as the turn completes.
  lemma FinishAgrees(s: System)
    requires Agreement(s) && s.mode.Running?
    ensures Agreement(Complete(s.(s2c := s.s2c + [Forward(Final)])))
  {
    SilentSnoc(s.s2c, Forward(Final));
    SettledSnoc(s.s2c, Forward(Final), false, true);
  }

  lemma PollAgrees(s: System)
    requires Agreement(s) && Enabled(s, BridgePoll)
    ensures Agreement(DoBridgePoll(s))
  {
    var e, rest := s.run.events[0], s.run.events[1..];
    var s1 := s.(run := s.run.(events := rest));
    EventTaken(s);
    if e.Final? {
      FinishAgrees(s1);
    } else if s.unconsumed == [] {
      SendQuietFrame(s1, Forward(e));
    }
  }

  // A plain step keeps the agreement exactly under its guard.
  lemma StepAgrees(s: System, step: Step)
    requires Agreement(s) && Ledger(s) && Enabled(s, step) && Plain(step)
    ensures Agreement(Next(s, step)) <==> Harmless(s, step)
  {
    match step
    case Submit(line, now) => SubmitAgrees(s, line, now);
    case ClientReceive => ClientReceiveAgrees(s);
    case BridgeReceive(reply) =>
      if IsCommand(s.c2s[0]) {
        CommandAgrees(s, reply);
      } else {
        PromptAgrees(s, reply);
      }
    case BridgePush => PushAgrees(s);
    case BridgeStart => StartAgrees(s);
    case BridgePoll => PollAgrees(s);
    case BridgeReconcile => ReconcileAgrees(s);
    case BridgeStreamEnd => CompleteAgrees(s);
    case BridgeChatter => SendQuietFrame(s, Chatter);
    case _ =>
  }

  // Without a tool called "compact" the guard never fails, and stays that way.
  lemma NoCompactToolIsHarmless(s: System, step: Step)
    requires NoCompactTool(s) && Enabled(s, step) && Plain(step) && step != KernelEmit(ToolStarted(COMPACT))
    ensures Harmless(s, step) && NoCompactTool(Next(s, step))
  {
    if step.Submit? {
      NotBlocking(step.line);
    }
  }
}
