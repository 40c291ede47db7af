// The client's bookkeeping for the turn in flight: whether it is busy, since
// when, which tool is running, and the steering lines it has queued.
module ClientTurn {
  import opened Prelude

  const COMPACT := "compact"
  const COMPACTING := "compacting session..."

  datatype Turn = Turn(busy: bool, busySince: Option<nat>, activeTool: Option<string>, queued: seq<string>)

  // `line.starts_with('/')`.
  predicate Slash(line: string)
  {
    line != [] && line[0] == '/'
  }

  const FRESH_TURN := Turn(false, None, None, [])

  // A start time is set exactly while busy, and nothing is queued while idle.
  predicate Coherent(t: Turn)
  {
    && (t.busy <==> t.busySince.Some?)
    && (t.queued != [] ==> t.busy)
  }

  function ClearActiveTurn(t: Turn): Turn
  {
    Turn(false, None, None, [])
  }

  // `now` is the clock reading; an already running timer is kept.
  function BeginBusy(t: Turn, activeTool: Option<string>, now: nat): Turn
  {
    t.(busySince := if t.busy then t.busySince else Some(now), busy := true, activeTool := activeTool)
  }

  function FinishActiveTurn(t: Turn): Turn
  {
    if t.queued == [] then t.(activeTool := None, busy := false, busySince := None)
    else t.(activeTool := None, busy := true)
  }

  predicate CanQueueSteering(t: Turn, line: string)
  {
    t.busy && !Slash(line) && t.activeTool != Some(COMPACT)
  }

  // Lines the client keeps to itself: `/agent` when idle and `/session`.
  predicate KeptByClient(busy: bool, line: string)
  {
    || (!busy && (line == "/agent" || StartsWith(line, "/agent ")))
    || line == "/session" || StartsWith(line, "/session ")
  }

  function BlockingCommandStatus(line: string): Option<string>
  {
    if Trim(line) == "/compact" then Some(COMPACT) else None
  }

  function CommitQueued(t: Turn, count: nat): Turn
  {
    t.(queued := t.queued[if count < |t.queued| then count else |t.queued|..])
  }

  // The turn after a line was submitted, given the line's blocking status.
  function Submitted(t: Turn, line: string, status: Option<string>, now: nat): Turn
  {
    var queued := CanQueueSteering(t, line);
    var t1 := if queued then t.(queued := t.queued + [line]) else t;
    if status.Some? then BeginBusy(t1, status, now)
    else if queued then BeginBusy(t1, t1.activeTool, now)
    else if Slash(line) then (if t1.busy then t1 else t1.(activeTool := None, busySince := None))
    else BeginBusy(t1, None, now)
  }

  // What submitting one non-blank line does to the turn. The second result says
  // whether the line travels as a steering prompt.
  function SubmitLine(t: Turn, line: string, now: nat): (Turn, bool)
  {
    (Submitted(t, line, BlockingCommandStatus(line), now), CanQueueSteering(t, line))
  }

  // Every transition keeps the turn coherent, from any coherent turn.
  lemma TransitionsStayCoherent(t: Turn, line: string, status: Option<string>, now: nat, count: nat)
    requires Coherent(t)
    ensures Coherent(ClearActiveTurn(t))
    ensures Coherent(BeginBusy(t, status, now))
    ensures Coherent(FinishActiveTurn(t))
    ensures Coherent(CommitQueued(t, count))
    ensures Coherent(Submitted(t, line, status, now))
  {
  }

  // What submitting a line comes to, from any coherent turn. A steering line only
  // joins the queue. `/compact` and any other line that is no command make the
  // client busy, and a timer that runs is kept. Other commands change nothing of a
  // turn, and start none.
  lemma SubmittingComesTo(t: Turn, line: string, now: nat)
    requires Coherent(t) && line != [] && Trimmed(line)
    ensures
      var (after, queued) := SubmitLine(t, line, now);
      var since := if t.busy then t.busySince else Some(now);
      && (queued <==> t.busy && line[0] != '/' && t.activeTool != Some("compact"))
      && (if queued then after == t.(queued := t.queued + [line])
          else if line == "/compact" then after == Turn(true, since, Some("compact"), t.queued)
          else if line[0] != '/' then after == Turn(true, since, None, t.queued)
          else if t.busy then after == t
          else after == FRESH_TURN)
  {
    var status := if line == "/compact" then Some(COMPACT) else None;
    StatusIs(line);
    SubmittedIs(t, line, status, now);
  }

  lemma StatusIs(line: string)
    requires Trimmed(line)
    ensures BlockingCommandStatus(line) == if line == "/compact" then Some(COMPACT) else None
  {
    TrimIdentity(line);
  }

  lemma SubmittedIs(t: Turn, line: string, status: Option<string>, now: nat)
    requires Coherent(t) && line != [] && (status.Some? ==> line[0] == '/')
    ensures
      var after, since := Submitted(t, line, status, now), if t.busy then t.busySince else Some(now);
      if CanQueueSteering(t, line) then after == t.(queued := t.queued + [line])
      else if status.Some? then after == Turn(true, since, status, t.queued)
      else if line[0] != '/' then after == Turn(true, since, None, t.queued)
      else if t.busy then after == t
      else after == FRESH_TURN
  {
  }

  // Up to its first space.
  function Head(line: string): string
  {
    match Find(line, ' ')
    case None => line
    case Some(i) => line[..i]
  }

  // The lines kept are those with the word `/session` before any space, and those
  // with `/agent` while no turn is active; longer words are sent.
  lemma KeptExactlyWhen(busy: bool, line: string)
    ensures KeptByClient(busy, line) <==> Head(line) == "/session" || (!busy && Head(line) == "/agent")
  {
    HeadExactlyWhen(line, "/session");
    HeadExactlyWhen(line, "/agent");
  }

  lemma HeadExactlyWhen(line: string, word: string)
    requires ' ' !in word
    ensures Head(line) == word <==> line == word || StartsWith(line, word + [' '])
  {
    if StartsWith(line, word + [' ']) {
      FindSplit(word, ' ', line[|word| + 1..]);
      assert line == word + [' '] + line[|word| + 1..];
    }
    match Find(line, ' ')
    case None =>
    case Some(i) =>
      assert line[..i + 1] == line[..i] + [' '];
  }
}
