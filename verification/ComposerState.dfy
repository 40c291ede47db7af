// The composer as a state machine over key presses and server frames.
module ComposerState {
  import opened Prelude
  import opened Utf8
  import opened EditBuffer
  import opened Editing
  import opened ClientTurn
  import opened SteeringModel
  import opened Notice

  datatype Composer = Composer(buffer: Buffer, history: seq<seq<Byte>>, histPos: Option<nat>, draft: Buffer,
                               anchor: Option<string>, compIdx: nat, turn: Turn)

  const FRESH := Composer(Buffer([], 0), [], None, Buffer([], 0), None, 0, FRESH_TURN)

  // Press of a key, or an event the same loop handles. Paste, newline and
  // character keys all insert text.
  datatype Key = Type(text: string) | Go(motion: Motion) | Erase(motion: Motion)
               | Tab | Up | Down | Enter(now: nat) | Escape | Frame(frame: ServerFrame) | TurnError | Lost

  const COMMANDS: seq<string> :=
    ["/compact", "/model", "/model list", "/model set ", "/model clear", "/model effort ", "/goal ",
     "/goal pause", "/goal resume", "/goal clear", "/agent ", "/session ", "/session main", "/help"]

  function Matching(commands: seq<string>, input: string): seq<string>
  {
    if commands == [] then []
    else (if StartsWith(commands[0], input) && commands[0] != input then [commands[0]] else [])
         + Matching(commands[1..], input)
  }

  function Completions(input: string): seq<string>
  {
    if !Slash(input) || '\n' in input then [] else Matching(COMMANDS, input)
  }

  predicate HistoryValid(history: seq<seq<Byte>>)
  {
    forall i | 0 <= i < |history| :: Valid(history[i])
  }

  // A browsing position names an entry.
  predicate InRange(c: Composer)
  {
    c.histPos.Some? ==> c.histPos.value < |c.history|
  }

  predicate SoundComposer(c: Composer)
  {
    && Sound(c.buffer)
    && HistoryValid(c.history)
    && InRange(c)
    && (c.histPos.Some? ==> Sound(c.draft))
    && Coherent(c.turn)
  }

  function SetInput(c: Composer, bytes: seq<Byte>): Composer
  {
    c.(buffer := Buffer(bytes, |bytes|))
  }

  function ClearInput(c: Composer): Composer
  {
    c.(buffer := Buffer([], 0), histPos := None, draft := Buffer([], 0), anchor := None, compIdx := 0)
  }

  function EditStarted(c: Composer): Composer
  {
    c.(anchor := None, compIdx := 0, histPos := None)
  }

  function Typed(alphanumeric: char -> bool, c: Composer, text: string): Composer
    requires Sound(c.buffer)
  {
    EditStarted(c.(buffer := Edited(alphanumeric, c.buffer, Insert(text))))
  }

  // A deletion with nothing to delete does not even count as an edit.
  function Erased(alphanumeric: char -> bool, c: Composer, m: Motion): Composer
    requires Sound(c.buffer)
  {
    if Target(alphanumeric, c.buffer, m) == c.buffer.cursor then c
    else EditStarted(c.(buffer := Edited(alphanumeric, c.buffer, Delete(m))))
  }

  function InputText(c: Composer): string
    requires Sound(c.buffer)
  {
    FromUtf8(c.buffer.bytes).value
  }

  // What the commands are offered for: the text there was at the first Tab.
  function TypedAnchor(c: Composer): string
    requires Sound(c.buffer)
  {
    match c.anchor
    case Some(a) => a
    case None => InputText(c)
  }

  // The command due is shown, and the next one is due.
  function Offered(c: Composer, anchor: string, comps: seq<string>): Composer
    requires comps != []
  {
    var idx := if c.anchor.None? then 0 else c.compIdx;
    SetInput(c, Encode(comps[idx % |comps|])).(anchor := Some(anchor), compIdx := (idx + 1) % USIZE_LIMIT)
  }

  function Completed(c: Composer): Composer
    requires Sound(c.buffer)
  {
    var anchor := TypedAnchor(c);
    var comps := Completions(anchor);
    if comps == [] then c else Offered(c, anchor, comps)
  }

  function Older(c: Composer): Composer
    requires InRange(c)
  {
    if c.history == [] then c
    else
      var pos := match c.histPos
        case None => |c.history| - 1
        case Some(p) => if p == 0 then 0 else p - 1;
      var stashed := if c.histPos.None? then c.(draft := c.buffer) else c;
      SetInput(stashed.(histPos := Some(pos), anchor := None), c.history[pos])
  }

  function Newer(c: Composer): Composer
  {
    match c.histPos
    case None => c
    case Some(p) =>
      if p + 1 < |c.history| then SetInput(c.(histPos := Some(p + 1), anchor := None), c.history[p + 1])
      else
        var cursor := if c.draft.cursor < |c.draft.bytes| then c.draft.cursor else |c.draft.bytes|;
        c.(histPos := None, anchor := None, buffer := Buffer(c.draft.bytes, cursor), draft := c.draft.(bytes := []))
  }

  function Remembered(history: seq<seq<Byte>>, line: seq<Byte>): seq<seq<Byte>>
  {
    if history != [] && history[|history| - 1] == line then history else history + [line]
  }

  function Entered(c: Composer, now: nat): Composer
    requires Sound(c.buffer)
  {
    var line := Trim(InputText(c));
    if KeptByClient(c.turn.busy, line) then ClearInput(c)
    else if line == [] then c
    else ClearInput(c.(history := Remembered(c.history, Encode(line)), turn := SubmitLine(c.turn, line, now).0))
  }

  function Pressed(alphanumeric: char -> bool, c: Composer, k: Key): Composer
    requires SoundComposer(c)
  {
    match k
    case Type(text) => Typed(alphanumeric, c, text)
    case Go(m) => c.(buffer := Edited(alphanumeric, c.buffer, Move(m)))
    case Erase(m) => Erased(alphanumeric, c, m)
    case Tab => Completed(c)
    case Up => Older(c)
    case Down => Newer(c)
    case Enter(now) => Entered(c, now)
    case Escape => if c.turn.busy then c.(turn := ClearActiveTurn(c.turn)) else c
    case Frame(f) => c.(turn := ClientApply(c.turn, f))
    case TurnError => c.(turn := ClearActiveTurn(c.turn))
    case Lost => c.(turn := ClearActiveTurn(c.turn))
  }

  // ---- every press keeps the composer sound ----

  lemma WholeIsSound(bytes: seq<Byte>)
    requires Valid(bytes)
    ensures Sound(Buffer(bytes, |bytes|))
  {
  }

  lemma EmptyIsSound()
    ensures Sound(Buffer([], 0))
  {
    FromUtf8Inverts([]);
  }

  lemma TypedSound(alphanumeric: char -> bool, c: Composer, text: string)
    requires SoundComposer(c)
    ensures SoundComposer(Typed(alphanumeric, c, text))
  {
    EditKeepsSound(alphanumeric, c.buffer, Insert(text));
  }

  lemma TypedIs(alphanumeric: char -> bool, c: Composer, text: string)
    requires Sound(c.buffer)
    ensures Typed(alphanumeric, c, text) == EditStarted(c.(buffer := Splice(c.buffer, Encode(text))))
  {
  }

  lemma ErasedIs(alphanumeric: char -> bool, c: Composer, m: Motion)
    requires Sound(c.buffer)
    ensures
      var to := Target(alphanumeric, c.buffer, m);
      && to <= |c.buffer.bytes|
      && Erased(alphanumeric, c, m) == if to == c.buffer.cursor then c else EditStarted(c.(buffer := Removed(c.buffer, to)))
  {
    TargetIsSound(alphanumeric, c.buffer, m);
  }

  lemma MovedSound(alphanumeric: char -> bool, c: Composer, m: Motion)
    requires SoundComposer(c)
    ensures SoundComposer(c.(buffer := Edited(alphanumeric, c.buffer, Move(m))))
  {
    EditKeepsSound(alphanumeric, c.buffer, Move(m));
  }

  lemma ErasedSound(alphanumeric: char -> bool, c: Composer, m: Motion)
    requires SoundComposer(c)
    ensures SoundComposer(Erased(alphanumeric, c, m))
  {
    EditKeepsSound(alphanumeric, c.buffer, Delete(m));
  }

  lemma SetInputSound(c: Composer, text: string)
    requires SoundComposer(c)
    ensures SoundComposer(SetInput(c, Encode(text)))
  {
    FromUtf8Inverts(text);
    WholeIsSound(Encode(text));
  }

  lemma EntryIsSound(history: seq<seq<Byte>>, i: nat)
    requires HistoryValid(history) && i < |history|
    ensures Sound(Buffer(history[i], |history[i]|))
  {
    WholeIsSound(history[i]);
  }

  lemma OlderSound(c: Composer)
    requires SoundComposer(c)
    ensures SoundComposer(Older(c))
  {
    if c.history != [] {
      EntryIsSound(c.history, Older(c).histPos.value);
    }
  }

  lemma ClampedSound(b: Buffer)
    requires Sound(b)
    ensures Buffer(b.bytes, if b.cursor < |b.bytes| then b.cursor else |b.bytes|) == b
  {
  }

  lemma NewerSound(c: Composer)
    requires SoundComposer(c)
    ensures SoundComposer(Newer(c))
  {
    if c.histPos.Some? {
      if c.histPos.value + 1 < |c.history| {
        EntryIsSound(c.history, c.histPos.value + 1);
      } else {
        ClampedSound(c.draft);
      }
    }
  }

  lemma CompletedSound(c: Composer)
    requires SoundComposer(c)
    ensures SoundComposer(Completed(c))
  {
    var anchor := match c.anchor case Some(a) => a case None => InputText(c);
    var comps := Completions(anchor);
    if comps != [] {
      var idx := if c.anchor.None? then 0 else c.compIdx;
      SetInputSound(c, comps[idx % |comps|]);
    }
  }

  lemma SubmitSound(c: Composer, line: string, status: Option<string>, now: nat)
    requires SoundComposer(c)
    ensures SoundComposer(ClearInput(c.(history := Remembered(c.history, Encode(line)),
                                        turn := Submitted(c.turn, line, status, now))))
  {
    EmptyIsSound();
    FromUtf8Inverts(line);
    TransitionsStayCoherent(c.turn, line, status, now, 0);
  }

  lemma EnteredSound(c: Composer, now: nat)
    requires SoundComposer(c)
    ensures SoundComposer(Entered(c, now))
  {
    var line := Trim(InputText(c));
    EmptyIsSound();
    SubmitSound(c, line, BlockingCommandStatus(line), now);
  }

  lemma ApplyCoherent(t: Turn, f: ServerFrame)
    requires Coherent(t)
    ensures Coherent(ClientApply(t, f))
  {
    if f.Text? && NoticeCount(f.notice, APPLIED).Some? {
      TransitionsStayCoherent(t, "", None, 0, NoticeCount(f.notice, APPLIED).value);
    }
  }

  lemma TurnSound(c: Composer, turn: Turn)
    requires SoundComposer(c) && Coherent(turn)
    ensures SoundComposer(c.(turn := turn))
  {
  }

  // The keys that edit the text.
  lemma EditKeySound(alphanumeric: char -> bool, c: Composer, k: Key)
    requires SoundComposer(c) && (k.Type? || k.Go? || k.Erase?)
    ensures SoundComposer(Pressed(alphanumeric, c, k))
  {
    match k
    case Type(text) => TypedSound(alphanumeric, c, text);
    case Go(m) => MovedSound(alphanumeric, c, m);
    case Erase(m) => ErasedSound(alphanumeric, c, m);
  }

  lemma PressKeepsSound(alphanumeric: char -> bool, c: Composer, k: Key)
    requires SoundComposer(c)
    ensures SoundComposer(Pressed(alphanumeric, c, k))
  {
    match k
    case Tab => CompletedSound(c);
    case Up => OlderSound(c);
    case Down => NewerSound(c);
    case Enter(now) => EnteredSound(c, now);
    case Frame(f) =>
      ApplyCoherent(c.turn, f);
      TurnSound(c, ClientApply(c.turn, f));
    case Type(_) => EditKeySound(alphanumeric, c, k);
    case Go(_) => EditKeySound(alphanumeric, c, k);
    case Erase(_) => EditKeySound(alphanumeric, c, k);
    case _ => TurnSound(c, ClearActiveTurn(c.turn));
  }

  function PressedAll(alphanumeric: char -> bool, c: Composer, keys: seq<Key>): Composer
    requires SoundComposer(c)
    decreases |keys|
  {
    if keys == [] then c
    else
      PressKeepsSound(alphanumeric, c, keys[0]);
      PressedAll(alphanumeric, Pressed(alphanumeric, c, keys[0]), keys[1..])
  }

  // Whatever is pressed and received, the buffer is valid UTF-8, the cursor is on
  // a character boundary inside it, queued input means busy, and busy means
  // exactly that a start time is set.
  lemma {:induction false} SessionStaysSound(alphanumeric: char -> bool, c: Composer, keys: seq<Key>)
    requires SoundComposer(c)
    ensures SoundComposer(PressedAll(alphanumeric, c, keys))
    decreases |keys|
  {
    if keys != [] {
      PressKeepsSound(alphanumeric, c, keys[0]);
      SessionStaysSound(alphanumeric, Pressed(alphanumeric, c, keys[0]), keys[1..]);
    }
  }

  // ---- history browsing ----

  // Keys that neither edit nor submit.
  predicate Browses(k: Key)
  {
    !k.Type? && !k.Erase? && !k.Enter?
  }

  // Browsing goes on with the stashed draft untouched, or the draft and its
  // cursor are back.
  predicate DraftKept(c: Composer, d: Composer)
  {
    if d.histPos.Some? then d.draft == c.draft else d.buffer == c.draft
  }

  lemma CompletedKeepsDraft(c: Composer)
    requires Sound(c.buffer) && c.histPos.Some?
    ensures DraftKept(c, Completed(c))
  {
  }

  lemma OlderKeepsDraft(c: Composer)
    requires InRange(c) && c.histPos.Some?
    ensures DraftKept(c, Older(c))
  {
  }

  lemma NewerKeepsDraft(c: Composer)
    requires Sound(c.draft) && c.histPos.Some?
    ensures DraftKept(c, Newer(c))
  {
    ClampedSound(c.draft);
  }

  // One key that neither edits nor submits, while browsing.
  lemma BrowseKeepsDraft(alphanumeric: char -> bool, c: Composer, k: Key)
    requires SoundComposer(c) && c.histPos.Some? && Browses(k)
    ensures DraftKept(c, Pressed(alphanumeric, c, k))
  {
    match k
    case Tab => CompletedKeepsDraft(c);
    case Up => OlderKeepsDraft(c);
    case Down => NewerKeepsDraft(c);
    case _ =>
  }

  predicate BrowsingUntilLast(alphanumeric: char -> bool, c: Composer, keys: seq<Key>)
    requires SoundComposer(c)
    decreases |keys|
  {
    keys == [] ||
    (c.histPos.Some? && Browses(keys[0]) &&
     (PressKeepsSound(alphanumeric, c, keys[0]);
      BrowsingUntilLast(alphanumeric, Pressed(alphanumeric, c, keys[0]), keys[1..])))
  }

  lemma {:induction false} BrowsingReturnsTheDraft(alphanumeric: char -> bool, c: Composer, keys: seq<Key>)
    requires SoundComposer(c) && c.histPos.Some? && BrowsingUntilLast(alphanumeric, c, keys)
    ensures DraftKept(c, PressedAll(alphanumeric, c, keys))
    decreases |keys|
  {
    if keys != [] {
      var next := Pressed(alphanumeric, c, keys[0]);
      PressKeepsSound(alphanumeric, c, keys[0]);
      BrowseKeepsDraft(alphanumeric, c, keys[0]);
      if next.histPos.Some? {
        BrowsingReturnsTheDraft(alphanumeric, next, keys[1..]);
      } else {
        assert keys[1..] == [];
      }
    }
  }

  lemma OlderFacts(c: Composer)
    requires InRange(c) && c.history != []
    ensures
      var d := Older(c);
      && InRange(d) && d.history == c.history
      && d.draft == (if c.histPos.Some? then c.draft else c.buffer)
      && d.histPos == Some(match c.histPos
                           case None => |c.history| - 1
                           case Some(p) => if p == 0 then 0 else p - 1)
  {
  }

  function Ups(c: Composer, n: nat): Composer
    requires InRange(c) && c.history != []
    decreases n
  {
    if n == 0 then c
    else
      OlderFacts(c);
      Ups(Older(c), n - 1)
  }

  function Downs(c: Composer, n: nat): Composer
    decreases n
  {
    if n == 0 then c else Downs(Newer(c), n - 1)
  }

  lemma {:induction false} UpsBrowse(c: Composer, n: nat)
    requires InRange(c) && c.histPos.Some? && c.history != []
    ensures
      var d := Ups(c, n);
      && d.histPos == Some(if n <= c.histPos.value then c.histPos.value - n else 0)
      && d.draft == c.draft && d.history == c.history
    decreases n
  {
    if n > 0 {
      OlderFacts(c);
      UpsBrowse(Older(c), n - 1);
    }
  }

  lemma {:induction false} DownsReturn(c: Composer, n: nat)
    requires c.histPos.Some? && n + c.histPos.value == |c.history| && n > 0
    requires c.draft.cursor <= |c.draft.bytes|
    ensures Downs(c, n).buffer == c.draft && Downs(c, n).histPos == None
    decreases n
  {
    if n == 1 {
      assert Downs(Newer(c), 0) == Newer(c);
    } else {
      DownsReturn(Newer(c), n - 1);
    }
  }

  // Any number of Ups, followed by as many Downs as entries were passed, brings
  // back the text being edited and its cursor.
  lemma UpsThenDownsRestore(c: Composer, n: nat)
    requires c.histPos.None? && c.history != [] && n > 0 && c.buffer.cursor <= |c.buffer.bytes|
    ensures
      var back := if n <= |c.history| then n else |c.history|;
      Downs(Ups(c, n), back).buffer == c.buffer && Downs(Ups(c, n), back).histPos == None
  {
    OlderFacts(c);
    UpsBrowse(Older(c), n - 1);
    DownsReturn(Ups(c, n), if n <= |c.history| then n else |c.history|);
  }
}
