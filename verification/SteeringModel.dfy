// The steering protocol as a transition system. A terminal client, the
// WebSocket bridge and the kernel task of the run in flight move in any order;
// they are joined by three FIFO channels (client to bridge, kernel events to
// bridge, bridge to client) and by the run's injection registry.
module SteeringModel {
  import opened Prelude
  import opened Notice
  import opened ClientTurn

  const APPLIED := "steering applied"
  const QUEUED := "steering queued"

  datatype ClientFrame = Prompt(text: string, steering: bool)

  datatype Event = Final | ToolStarted(name: string) | ToolCompleted | Stream

  datatype ServerFrame = Text(notice: string) | Forward(event: Event) | Chatter

  datatype Phase = Active | Stopped | Done

  // One kernel run. `pending` is the registry entry; `drained` and `cleared`
  // record what the inject hook handed to the model and what `on_stop` threw
  // away. `drainUnreported` holds while no registry reading has followed the
  // last non-empty drain; `clearReported` holds once a reading has counted
  // discarded prompts as consumed.
  datatype Run = Run(pending: seq<string>, phase: Phase, events: seq<Event>,
                     drained: seq<string>, cleared: seq<string>,
                     drainUnreported: bool, clearReported: bool)

  const FRESH_RUN := Run([], Active, [], [], [], false, false)

  // Where the bridge's task is suspended. `Submitting` lies between the registry
  // submit and the push that mirrors it; `Reconciling` between reading the
  // pending count and popping the mirror.
  datatype Mode = Idle | Starting(prompts: seq<string>) | Running
                | Submitting(prompt: string) | Reconciling(pendingCount: nat)

  // History: `inflight` are the batches acknowledged by notices still under way,
  // `received` every prompt the bridge accepted, `fed` every prompt given to the
  // model, `clean` whether each completed turn dropped exactly what it drained.
  datatype System = System(client: Turn, c2s: seq<ClientFrame>, mode: Mode, unconsumed: seq<string>,
                           dropped: nat, run: Run, s2c: seq<ServerFrame>,
                           inflight: seq<seq<string>>, received: seq<string>, fed: seq<string>, clean: bool)

  const INITIAL := System(FRESH_TURN, [], Idle, [], 0, FRESH_RUN, [], [], [], [], true)

  datatype Step =
    | Submit(line: string, now: nat)
    | ClientReceive
    | BridgeReceive(reply: string)
    | BridgePush
    | BridgeStart
    | BridgePoll
    | BridgeReconcile
    | BridgeStreamEnd
    | BridgeChatter
    | KernelDrain
    | KernelEmit(event: Event)
    | KernelStop
    | KernelFinish

  predicate Live(m: Mode)
  {
    m.Running? || m.Submitting? || m.Reconciling?
  }

  predicate IsCommand(f: ClientFrame)
  {
    Slash(f.text) && !f.steering
  }

  // When each actor can move. A submitted line is trimmed, non-blank and none the
  // client keeps to itself, and a VecDeque holds fewer than 2^64 entries.
  predicate Enabled(s: System, step: Step)
  {
    match step
    case Submit(line, _) => line != [] && Trimmed(line) && !KeptByClient(s.client.busy, line)
    case ClientReceive => s.s2c != []
    case BridgeReceive(_) => s.c2s != [] && (s.mode.Idle? || s.mode.Running?) && |s.unconsumed| + 1 < USIZE_LIMIT
    case BridgePush => s.mode.Submitting?
    case BridgeStart => s.mode.Starting?
    case BridgePoll => s.mode.Running? && s.run.events != []
    case BridgeReconcile => s.mode.Reconciling? && s.run.events != []
    case BridgeStreamEnd => s.mode.Running? && s.run.events == []
    case BridgeChatter => true
    case KernelDrain => Live(s.mode) && s.run.phase.Active?
    case KernelEmit(e) => Live(s.mode) && s.run.phase.Active? && !e.Final?
    case KernelStop => Live(s.mode) && s.run.phase.Active?
    case KernelFinish => Live(s.mode) && s.run.phase.Stopped?
  }

  // `/goal` with an objective, or to resume one: the bridge goes on with the goal
  // by itself once it is idle.
  predicate ContinuesGoal(line: string)
  {
    && StartsWith(line, "/goal") && |line| > 5 && IsWhitespace(line[5])
    && Trim(line[5..]) != "pause" && Trim(line[5..]) != "clear"
  }

  // Asking for the goal, pausing and clearing it start nothing; anything else does.
  lemma GoalCommands(rest: string)
    requires Trimmed(rest)
    ensures ContinuesGoal("/goal" + ([' '] + rest)) <==> rest != "pause" && rest != "clear"
    ensures !ContinuesGoal("/goal")
  {
    var line := "/goal" + ([' '] + rest);
    assert line[5] == ' ' && line[5..] == [' '] + rest;
    TrimPadded(rest);
  }

  // The runs for which the two queues are compared: no `/compact`, no goal the
  // bridge goes on with, and no command reply that imitates a steering notice.
  // Cancelling, turn errors, disconnects and switching agent or session have no
  // step at all.
  predicate Plain(step: Step)
  {
    match step
    case Submit(line, _) => line != "/compact" && !ContinuesGoal(line)
    case BridgeReceive(reply) => NoticeCount(reply, APPLIED).None?
    case _ => true
  }

  function ClientApply(t: Turn, f: ServerFrame): Turn
  {
    match f
    case Text(text) =>
      (match NoticeCount(text, APPLIED)
       case Some(count) => CommitQueued(t, count)
       case None =>
         if text == QUEUED || StartsWith(text, "steering queued for follow-up") then t
         else if t.activeTool == Some(COMPACT) && text != COMPACTING then FinishActiveTurn(t)
         else t)
    case Forward(Final) => FinishActiveTurn(t)
    case Forward(ToolStarted(name)) => t.(activeTool := Some(name))
    case Forward(ToolCompleted) => t.(activeTool := None)
    case Forward(Stream) => t
    case Chatter => t
  }

  function DoSubmit(s: System, line: string, now: nat): System
  {
    var (turn, queued) := SubmitLine(s.client, line, now);
    s.(client := turn, c2s := s.c2s + [Prompt(line, queued)])
  }

  function DoClientReceive(s: System): System
    requires s.s2c != []
  {
    var acknowledges := s.s2c[0].Text? && NoticeCount(s.s2c[0].notice, APPLIED).Some? && s.inflight != [];
    s.(client := ClientApply(s.client, s.s2c[0]), s2c := s.s2c[1..],
       inflight := if acknowledges then s.inflight[1..] else s.inflight)
  }

  // A command is answered in place. Any other prompt starts a turn when idle
  // and is submitted to the running turn otherwise.
  function DoBridgeReceive(s: System, reply: string): System
    requires s.c2s != []
  {
    var f, s1 := s.c2s[0], s.(c2s := s.c2s[1..]);
    if Slash(f.text) && (s.mode.Running? || !f.steering) then
      s1.(s2c := s.s2c + [Text(reply)])
    else if s.mode.Running? then
      s1.(mode := Submitting(f.text), received := s.received + [f.text],
          run := s.run.(pending := s.run.pending + [f.text]))
    else if f.steering then
      s1.(mode := Starting([f.text]), received := s.received + [f.text])
    else
      s1.(mode := Running, dropped := 0, run := FRESH_RUN,
          received := s.received + [f.text], fed := s.fed + [f.text])
  }

  function DoBridgePush(s: System): System
    requires s.mode.Submitting?
  {
    s.(mode := Running, unconsumed := s.unconsumed + [s.mode.prompt], s2c := s.s2c + [Text(QUEUED)])
  }

  function DoBridgeStart(s: System): System
    requires s.mode.Starting?
  {
    var prompts := s.mode.prompts;
    s.(mode := Running, dropped := 0, run := FRESH_RUN, fed := s.fed + prompts,
       s2c := s.s2c + [Text(SteeringNotice(APPLIED, |prompts|))], inflight := s.inflight + [prompts])
  }

  // The turn ends and whatever the mirror still holds becomes the follow-up turn.
  function Complete(s: System): System
  {
    s.(mode := if s.unconsumed == [] then Idle else Starting(s.unconsumed), unconsumed := [],
       clean := s.clean && s.dropped == |s.run.drained|)
  }

  function DoBridgePoll(s: System): System
    requires s.run.events != []
  {
    var e, rest := s.run.events[0], s.run.events[1..];
    if e.Final? then
      Complete(s.(run := s.run.(events := rest), s2c := s.s2c + [Forward(e)]))
    else if s.unconsumed == [] then
      s.(run := s.run.(events := rest), s2c := s.s2c + [Forward(e)])
    else
      s.(mode := Reconciling(|s.run.pending|),
         run := s.run.(drainUnreported := false, clearReported := s.run.cleared != []))
  }

  // How many prompts a registry reading marks as consumed.
  function Consumed(prompts: seq<string>, pendingCount: nat): nat
  {
    if pendingCount < |prompts| then |prompts| - pendingCount else 0
  }

  function DoBridgeReconcile(s: System): System
    requires s.mode.Reconciling? && s.run.events != []
  {
    var e, consumed := s.run.events[0], Consumed(s.unconsumed, s.mode.pendingCount);
    var s1 := s.(mode := Running, run := s.run.(events := s.run.events[1..]));
    if consumed == 0 then s1.(s2c := s.s2c + [Forward(e)])
    else
      s1.(unconsumed := s.unconsumed[consumed..], dropped := s.dropped + consumed,
          s2c := s.s2c + [Text(SteeringNotice(APPLIED, consumed))] + [Forward(e)],
          inflight := s.inflight + [s.unconsumed[..consumed]])
  }

  function DoDrain(s: System): System
  {
    s.(run := s.run.(pending := [], drained := s.run.drained + s.run.pending,
                     drainUnreported := s.run.drainUnreported || s.run.pending != []),
       fed := s.fed + s.run.pending)
  }

  function DoStop(s: System): System
  {
    s.(run := s.run.(pending := [], cleared := s.run.cleared + s.run.pending, phase := Stopped))
  }

  function Next(s: System, step: Step): System
    requires Enabled(s, step)
  {
    match step
    case Submit(line, now) => DoSubmit(s, line, now)
    case ClientReceive => DoClientReceive(s)
    case BridgeReceive(reply) => DoBridgeReceive(s, reply)
    case BridgePush => DoBridgePush(s)
    case BridgeStart => DoBridgeStart(s)
    case BridgePoll => DoBridgePoll(s)
    case BridgeReconcile => DoBridgeReconcile(s)
    case BridgeStreamEnd => Complete(s)
    case BridgeChatter => s.(s2c := s.s2c + [Chatter])
    case KernelDrain => DoDrain(s)
    case KernelEmit(e) => s.(run := s.run.(events := s.run.events + [e]))
    case KernelStop => DoStop(s)
    case KernelFinish => s.(run := s.run.(events := s.run.events + [Final], phase := Done))
  }

  predicate Possible(s: System, steps: seq<Step>)
    decreases |steps|
  {
    steps == [] || (Enabled(s, steps[0]) && Possible(Next(s, steps[0]), steps[1..]))
  }

  function After(s: System, steps: seq<Step>): System
    requires Possible(s, steps)
    decreases |steps|
  {
    if steps == [] then s else After(Next(s, steps[0]), steps[1..])
  }

  // Every prompt the run in flight accepted, in order of arrival.
  function Accepted(run: Run): seq<string>
  {
    run.drained + run.cleared + run.pending
  }

  // What the bridge holds for the turn in flight or the one about to start.
  function Held(s: System): seq<string>
  {
    match s.mode
    case Starting(prompts) => prompts
    case Submitting(prompt) => s.unconsumed + [prompt]
    case _ => s.unconsumed
  }
}
