// The client's queue against what the bridge and the channels hold, over every
// plain run.
module SteeringAgreement {
  import opened Prelude
  import opened Notice
  import opened ClientTurn
  import opened SteeringModel

  function Batch(b: seq<string>): seq<string>
  {
    b
  }

  function Flatten(batches: seq<seq<string>>): seq<string>
  {
    FlatMap(batches, Batch)
  }

  function WorkOf(f: ClientFrame): seq<ClientFrame>
  {
    if IsCommand(f) then [] else [f]
  }

  // The prompts in flight to the bridge, commands left out.
  function Work(c2s: seq<ClientFrame>): seq<ClientFrame>
  {
    FlatMap(c2s, WorkOf)
  }

  predicate OpensWithPlain(w: seq<ClientFrame>)
  {
    w != [] && !w[0].steering
  }

  // The steering prompts among them.
  function SteeringPart(w: seq<ClientFrame>): seq<ClientFrame>
  {
    if OpensWithPlain(w) then w[1..] else w
  }

  function Texts(w: seq<ClientFrame>): (t: seq<string>)
    ensures |t| == |w|
  {
    seq(|w|, i requires 0 <= i < |w| => w[i].text)
  }

  function AppliedCount(f: ServerFrame): seq<nat>
  {
    if f.Text? && NoticeCount(f.notice, APPLIED).Some? then [NoticeCount(f.notice, APPLIED).value] else []
  }

  // The counts of the applied-notices in flight to the client.
  function AppliedCounts(s2c: seq<ServerFrame>): seq<nat>
  {
    FlatMap(s2c, AppliedCount)
  }

  predicate NoFinal(s2c: seq<ServerFrame>)
  {
    Forward(Final) !in s2c
  }

  // After each `final` in flight there is either a notice still to come, or no
  // further `final` and, at the bridge, nothing that runs or will run unasked.
  predicate Settled(s2c: seq<ServerFrame>, quiet: bool)
  {
    s2c != [] ==>
      && (s2c[0] == Forward(Final) ==> AppliedCounts(s2c[1..]) != [] || (quiet && NoFinal(s2c[1..])))
      && Settled(s2c[1..], quiet)
  }

  lemma SettledWeaken(s2c: seq<ServerFrame>, quiet: bool)
    requires Settled(s2c, false)
    ensures Settled(s2c, quiet)
  {
  }

  lemma SettledWithoutFinal(s2c: seq<ServerFrame>, quiet: bool)
    requires NoFinal(s2c)
    ensures Settled(s2c, quiet)
  {
  }

  lemma AppliedSnocNonEmpty(s2c: seq<ServerFrame>, f: ServerFrame)
    ensures AppliedCounts(s2c + [f]) != [] <==> AppliedCounts(s2c) != [] || AppliedCount(f) != []
  {
    FlatMapSnoc(s2c, f, AppliedCount);
  }

  lemma NoFinalSnoc(s2c: seq<ServerFrame>, f: ServerFrame)
    ensures NoFinal(s2c + [f]) <==> NoFinal(s2c) && f != Forward(Final)
  {
    assert (s2c + [f])[|s2c|] == f;
  }

  lemma {:induction false} SettledSnoc(s2c: seq<ServerFrame>, f: ServerFrame, before: bool, quiet: bool)
    requires Settled(s2c, before)
    requires f == Forward(Final) ==> !before && quiet
    requires before == quiet || AppliedCount(f) != [] || f == Forward(Final)
    ensures Settled(s2c + [f], quiet)
  {
    var t := s2c + [f];
    if s2c == [] {
      assert t[1..] == [];
    } else {
      assert t[1..] == s2c[1..] + [f];
      SettledSnoc(s2c[1..], f, before, quiet);
      AppliedSnocNonEmpty(s2c[1..], f);
      NoFinalSnoc(s2c[1..], f);
    }
  }

  // Nothing runs at the bridge and nothing will start unasked.
  predicate Quiet(live: bool, w: seq<ClientFrame>)
  {
    !live && !OpensWithPlain(w)
  }

  // The client's queue is the acknowledged batches in flight, then what the
  // bridge holds, then the steering prompts in flight.
  predicate QueuesAgree(queued: seq<string>, inflight: seq<seq<string>>, held: seq<string>, w: seq<ClientFrame>)
  {
    queued == Flatten(inflight) + held + Texts(SteeringPart(w))
  }

  // Each notice in flight carries the size of its own, non-empty, batch.
  predicate CountsAgree(s2c: seq<ServerFrame>, inflight: seq<seq<string>>)
  {
    && |AppliedCounts(s2c)| == |inflight|
    && forall i | 0 <= i < |inflight| :: inflight[i] != [] && AppliedCounts(s2c)[i] == |inflight[i]|
  }

  // A plain prompt in flight is the first one, and then the bridge is idle.
  predicate ArrivalsHold(w: seq<ClientFrame>, idle: bool)
  {
    && (forall i | 0 < i < |w| :: w[i].steering)
    && (OpensWithPlain(w) ==> idle)
  }

  predicate Marked(c2s: seq<ClientFrame>)
  {
    forall i | 0 <= i < |c2s| :: c2s[i].steering ==> !Slash(c2s[i].text)
  }

  predicate IdleHolds(client: Turn, idle: bool, w: seq<ClientFrame>, s2c: seq<ServerFrame>)
  {
    !client.busy ==> idle && w == [] && NoFinal(s2c) && client.queued == []
  }

  predicate Consistent(client: Turn, c2s: seq<ClientFrame>, idle: bool, live: bool, held: seq<string>,
                       s2c: seq<ServerFrame>, inflight: seq<seq<string>>)
  {
    var w := Work(c2s);
    && QueuesAgree(client.queued, inflight, held, w)
    && CountsAgree(s2c, inflight)
    && ArrivalsHold(w, idle)
    && Marked(c2s)
    && Settled(s2c, Quiet(live, w))
    && IdleHolds(client, idle, w, s2c)
  }

  predicate Agreement(s: System)
  {
    Consistent(s.client, s.c2s, s.mode.Idle?, Live(s.mode), Held(s), s.s2c, s.inflight)
  }

  // ---- the one tool name the client gives a meaning to ----

  // A line that the client sends as a plain prompt although a turn runs, because
  // the running tool is called "compact".
  predicate SlipsThrough(t: Turn, line: string)
  {
    !Slash(line) && t.busy && t.activeTool == Some(COMPACT)
  }

  // A text the client takes for the end of a compaction.
  predicate EndsCompaction(t: Turn, f: ServerFrame)
  {
    && t.activeTool == Some(COMPACT) && f.Text? && NoticeCount(f.notice, APPLIED).None?
    && f.notice != QUEUED && !StartsWith(f.notice, "steering queued for follow-up") && f.notice != COMPACTING
  }

  // Nothing runs at the bridge, nothing is on its way to it, and each `final` in
  // flight is followed by a notice.
  predicate RoomForPlain(s: System)
  {
    s.mode.Idle? && Work(s.c2s) == [] && Settled(s.s2c, false)
  }

  // The client may go idle: it has nothing queued that could be forgotten, or
  // the bridge has nothing left to do for it.
  predicate MayGoIdle(s: System)
  {
    s.client.queued != [] || (s.mode.Idle? && Work(s.c2s) == [] && NoFinal(s.s2c))
  }

  // The guard under which a step keeps the agreement. It only ever fails under a
  // tool called "compact".
  predicate Harmless(s: System, step: Step)
  {
    match step
    case Submit(line, _) => SlipsThrough(s.client, line) ==> RoomForPlain(s)
    case ClientReceive => s.s2c != [] && EndsCompaction(s.client, s.s2c[0]) ==> MayGoIdle(s)
    case _ => true
  }

  // No tool called "compact" is known to the client or on its way to it.
  predicate NoCompactTool(s: System)
  {
    && s.client.activeTool != Some(COMPACT)
    && Forward(ToolStarted(COMPACT)) !in s.s2c
    && (Live(s.mode) ==> ToolStarted(COMPACT) !in s.run.events)
  }
}
