// The client's `App` object: its fields and the methods that change them in
// place, each proved against the composer state machine.
module ComposerApp {
  import opened Prelude
  import opened Utf8
  import opened EditBuffer
  import opened Editing
  import opened ClientTurn
  import opened SteeringModel
  import opened ComposerState

  // The two loops of `previous_word_boundary`.
  method FindPreviousWordBoundary(alphanumeric: char -> bool, text: seq<Byte>, pos: nat) returns (cur: nat)
    requires pos <= |text|
    ensures cur == PreviousWordBoundary(alphanumeric, text, pos)
  {
    cur := pos;
    while cur > 0
      invariant cur <= pos
      invariant SkipLeft(alphanumeric, text, cur, false) == SkipLeft(alphanumeric, text, pos, false)
    {
      var prev := PrevCharBoundary(text, cur);
      if IsWordChar(alphanumeric, CharAt(text, prev, cur)) {
        break;
      }
      cur := prev;
    }
    ghost var mid := cur;
    assert mid == SkipLeft(alphanumeric, text, pos, false);
    while cur > 0
      invariant cur <= mid
      invariant SkipLeft(alphanumeric, text, cur, true) == SkipLeft(alphanumeric, text, mid, true)
    {
      var prev := PrevCharBoundary(text, cur);
      if !IsWordChar(alphanumeric, CharAt(text, prev, cur)) {
        break;
      }
      cur := prev;
    }
  }

  class App {
    const alphanumeric: char -> bool
    var input: seq<Byte>
    var cursor: nat
    var history: seq<seq<Byte>>
    var histPos: Option<nat>
    var draft: seq<Byte>
    var draftCursor: nat
    var compAnchor: Option<string>
    var compIdx: nat
    var busy: bool
    var busySince: Option<nat>
    var activeTool: Option<string>
    var queuedInputs: seq<string>

    function TurnState(): Turn
      reads this
    {
      Turn(busy, busySince, activeTool, queuedInputs)
    }

    function State(): Composer
      reads this
    {
      Composer(Buffer(input, cursor), history, histPos, Buffer(draft, draftCursor), compAnchor, compIdx, TurnState())
    }

    // Kept by every method that stands for a key or an event.
    ghost predicate IsSound()
      reads this
    {
      SoundComposer(State())
    }

    constructor (alphanumeric: char -> bool)
      ensures State() == FRESH && IsSound() && this.alphanumeric == alphanumeric
    {
      this.alphanumeric := alphanumeric;
      input, cursor, history, histPos, draft, draftCursor := [], 0, [], None, [], 0;
      compAnchor, compIdx := None, 0;
      busy, busySince, activeTool, queuedInputs := false, None, None, [];
      new;
      EmptyIsSound();
    }

    method SetInputTo(text: seq<Byte>)
      modifies this`input, this`cursor
      ensures State() == SetInput(old(State()), text)
    {
      input := text;
      cursor := |input|;
    }

    method Clear()
      modifies this
      ensures State() == ClearInput(old(State()))
    {
      input, cursor, histPos, draft, draftCursor := [], 0, None, [], 0;
      compAnchor, compIdx := None, 0;
    }

    method NoteEdit()
      modifies this`compAnchor, this`compIdx, this`histPos
      ensures State() == EditStarted(old(State()))
    {
      compAnchor, compIdx := None, 0;
      histPos := None;
    }

    // `String::insert_str` at the cursor.
    method InsertBytes(bytes: seq<Byte>)
      requires cursor <= |input|
      modifies this`input, this`cursor
      ensures Buffer(input, cursor) == Splice(old(Buffer(input, cursor)), bytes)
    {
      input := input[..cursor] + bytes + input[cursor..];
      cursor := cursor + |bytes|;
    }

    // `String::drain` between the cursor and `to`, on either side of it.
    method DrainBytes(to: nat)
      requires cursor <= |input| && to <= |input|
      modifies this`input, this`cursor
      ensures Buffer(input, cursor) == old(Removed(Buffer(input, cursor), to))
    {
      if to <= cursor {
        input := input[..to] + input[cursor..];
        cursor := to;
      } else {
        input := input[..cursor] + input[to..];
      }
    }

    method InsertText(text: string)
      requires IsSound()
      modifies this
      ensures State() == Typed(alphanumeric, old(State()), text) && IsSound()
    {
      TypedSound(alphanumeric, State(), text);
      TypedIs(alphanumeric, State(), text);
      InsertBytes(Encode(text));
      NoteEdit();
    }

    method MoveCursor(m: Motion)
      requires IsSound()
      modifies this`cursor
      ensures State() == Pressed(alphanumeric, old(State()), Go(m)) && IsSound()
    {
      MovedSound(alphanumeric, State(), m);
      if m.WordLeft? {
        cursor := FindPreviousWordBoundary(alphanumeric, input, cursor);
      } else {
        cursor := Target(alphanumeric, Buffer(input, cursor), m);
      }
    }

    // `drain` from or up to the cursor; nothing happens when the target is the cursor.
    method EraseTo(m: Motion)
      requires IsSound()
      modifies this
      ensures State() == Erased(alphanumeric, old(State()), m) && IsSound()
    {
      ErasedSound(alphanumeric, State(), m);
      ErasedIs(alphanumeric, State(), m);
      var to := Target(alphanumeric, Buffer(input, cursor), m);
      if to != cursor {
        DrainBytes(to);
        NoteEdit();
      }
    }

    // The Up key.
    method BrowseOlder()
      requires InRange(State())
      modifies this
      ensures State() == Older(old(State()))
      ensures old(IsSound()) ==> IsSound()
    {
      if IsSound() {
        OlderSound(State());
      }
      RecallOlder();
    }

    method RecallOlder()
      requires InRange(State())
      modifies this
      ensures State() == Older(old(State()))
    {
      if history == [] {
        return;
      }
      var pos := 0;
      match histPos {
        case None =>
          draft, draftCursor := input, cursor;
          pos := |history| - 1;
        case Some(p) =>
          pos := if p == 0 then 0 else p - 1;
      }
      histPos := Some(pos);
      SetInputTo(history[pos]);
      compAnchor := None;
    }

    // The Down key.
    method BrowseNewer()
      modifies this
      ensures State() == Newer(old(State()))
      ensures old(IsSound()) ==> IsSound()
    {
      if IsSound() {
        NewerSound(State());
      }
      RecallNewer();
    }

    method RecallNewer()
      modifies this
      ensures State() == Newer(old(State()))
    {
      match histPos {
        case None =>
        case Some(p) =>
          if p + 1 < |history| {
            histPos := Some(p + 1);
            SetInputTo(history[p + 1]);
          } else {
            histPos := None;
            input, draft := draft, [];
            cursor := if draftCursor < |input| then draftCursor else |input|;
          }
          compAnchor := None;
      }
    }

    method ClearTurn()
      modifies this`busy, this`busySince, this`activeTool, this`queuedInputs
      ensures TurnState() == ClearActiveTurn(old(TurnState()))
      ensures old(IsSound()) ==> IsSound()
    {
      activeTool, busy, busySince, queuedInputs := None, false, None, [];
    }

    method StartBusy(tool: Option<string>, now: nat)
      modifies this`busy, this`busySince, this`activeTool
      ensures TurnState() == BeginBusy(old(TurnState()), tool, now)
      ensures old(IsSound()) ==> IsSound()
    {
      if !busy {
        busySince := Some(now);
      }
      busy := true;
      activeTool := tool;
    }

    method FinishTurn()
      modifies this`busy, this`busySince, this`activeTool
      ensures TurnState() == FinishActiveTurn(old(TurnState()))
      ensures old(IsSound()) ==> IsSound()
    {
      activeTool := None;
      if queuedInputs == [] {
        busy, busySince := false, None;
      } else {
        busy := true;
      }
    }

    // Pops the acknowledged inputs one by one, committing each to the transcript.
    method CommitQueuedInputs(count: nat) returns (committed: seq<string>)
      modifies this`queuedInputs
      ensures TurnState() == CommitQueued(old(TurnState()), count)
      ensures committed + queuedInputs == old(queuedInputs)
      ensures |committed| == if count < |old(queuedInputs)| then count else |old(queuedInputs)|
      ensures old(IsSound()) ==> IsSound()
    {
      if IsSound() {
        TransitionsStayCoherent(TurnState(), "", None, 0, count);
      }
      committed := PopQueued(count);
    }

    method PopQueued(count: nat) returns (popped: seq<string>)
      modifies this`queuedInputs
      ensures popped + queuedInputs == old(queuedInputs)
      ensures |popped| == if count < |old(queuedInputs)| then count else |old(queuedInputs)|
      ensures queuedInputs == old(queuedInputs)[|popped|..]
    {
      popped := [];
      var left := count;
      while left > 0 && queuedInputs != []
        invariant popped + queuedInputs == old(queuedInputs)
        invariant left + |popped| == count && left >= 0
      {
        popped := popped + [queuedInputs[0]];
        queuedInputs := queuedInputs[1..];
        left := left - 1;
      }
    }

    // The turn's side of the Enter key.
    method SubmitTurn(line: string, now: nat) returns (queued: bool)
      modifies this`busy, this`busySince, this`activeTool, this`queuedInputs
      ensures (TurnState(), queued) == SubmitLine(old(TurnState()), line, now)
    {
      queued := CanQueueSteering(TurnState(), line);
      if queued {
        queuedInputs := queuedInputs + [line];
      }
      var status := BlockingCommandStatus(line);
      if status.Some? {
        StartBusy(status, now);
      } else if queued {
        StartBusy(activeTool, now);
      } else if Slash(line) {
        if !busy {
          activeTool, busySince := None, None;
        }
      } else {
        StartBusy(None, now);
      }
    }

    // The Enter key. The result is the frame to send, if any.
    method Submit(now: nat) returns (frame: Option<ClientFrame>)
      requires IsSound()
      modifies this
      ensures State() == Entered(old(State()), now) && IsSound()
      ensures
        var line := Trim(InputText(old(State())));
        frame == if KeptByClient(old(busy), line) || line == [] then None
                 else Some(Prompt(line, CanQueueSteering(old(TurnState()), line)))
    {
      EnteredSound(State(), now);
      frame := Enter(now);
    }

    method Enter(now: nat) returns (frame: Option<ClientFrame>)
      requires Sound(State().buffer)
      modifies this
      ensures State() == Entered(old(State()), now)
      ensures
        var line := Trim(InputText(old(State())));
        frame == if KeptByClient(old(busy), line) || line == [] then None
                 else Some(Prompt(line, CanQueueSteering(old(TurnState()), line)))
    {
      var line := Trim(InputText(State()));
      frame := None;
      if KeptByClient(busy, line) {
        Clear();
      } else if line != [] {
        history := Remembered(history, Encode(line));
        Clear();
        var queued := SubmitTurn(line, now);
        frame := Some(Prompt(line, queued));
      }
    }
  }
}
