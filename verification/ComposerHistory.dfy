// What the composer shows: which line while history is browsed, which command
// while Tab cycles; and what each key leaves alone.
module ComposerHistory {
  import opened Prelude
  import opened Utf8
  import opened EditBuffer
  import opened Editing
  import opened Notice
  import opened ClientTurn
  import opened ComposerState

  // ---- history ----

  // A text with the cursor at its end.
  function Whole(bytes: seq<Byte>): Buffer
  {
    Buffer(bytes, |bytes|)
  }

  // The entry at the browsing position is shown.
  predicate ShowsEntry(c: Composer)
  {
    c.histPos.Some? ==> c.histPos.value < |c.history| && c.buffer == Whole(c.history[c.histPos.value])
  }

  lemma OlderShows(c: Composer)
    requires InRange(c) && c.history != []
    ensures ShowsEntry(Older(c))
  {
  }

  lemma NewerShows(c: Composer)
    requires c.histPos.Some? && c.histPos.value + 1 < |c.history|
    ensures ShowsEntry(Newer(c)) && Newer(c).histPos == Some(c.histPos.value + 1) && Newer(c).history == c.history
  {
  }

  lemma {:induction false} UpsShow(c: Composer, n: nat)
    requires InRange(c) && c.history != [] && ShowsEntry(c)
    ensures ShowsEntry(Ups(c, n))
    decreases n
  {
    if n > 0 {
      OlderFacts(c);
      OlderShows(c);
      UpsShow(Older(c), n - 1);
    }
  }

  lemma {:induction false} DownsShow(c: Composer, n: nat)
    requires c.histPos.Some? && c.histPos.value + n < |c.history| && ShowsEntry(c)
    ensures
      var d := Downs(c, n);
      ShowsEntry(d) && d.histPos == Some(c.histPos.value + n) && d.history == c.history
    decreases n
  {
    if n > 0 {
      NewerShows(c);
      DownsShow(Newer(c), n - 1);
    }
  }

  // `n` Ups show the `n`-th entry from the end, or the first one; and `m` Downs
  // from there the one `m` entries later.
  lemma UpsThenDownsShow(c: Composer, n: nat, m: nat)
    requires c.histPos.None? && c.history != [] && n > 0
    ensures
      var back := if n <= |c.history| then n else |c.history|;
      m < back ==> Downs(Ups(c, n), m).buffer == Whole(c.history[|c.history| - back + m])
  {
    var back := if n <= |c.history| then n else |c.history|;
    OlderFacts(c);
    OlderShows(c);
    UpsBrowse(Older(c), n - 1);
    UpsShow(Older(c), n - 1);
    if m < back {
      DownsShow(Ups(c, n), m);
    }
  }

  // The history after a line: the line is last, and an entry it equals is not doubled.
  lemma RememberedIs(history: seq<seq<Byte>>, line: seq<Byte>)
    ensures
      var after := Remembered(history, line);
      && after != [] && after[|after| - 1] == line
      && after == (if history != [] && history[|history| - 1] == line then history else history + [line])
  {
  }

  lemma SentIs(c: Composer, now: nat, line: string)
    requires Sound(c.buffer) && line == Trim(InputText(c)) && line != [] && !KeptByClient(c.turn.busy, line)
    ensures Entered(c, now)
         == Composer(Whole([]), Remembered(c.history, Encode(line)), None, Whole([]), None, 0, SubmitLine(c.turn, line, now).0)
  {
  }

  lemma LastIsShown(d: Composer)
    requires d.histPos.None? && d.history != []
    ensures Older(d).buffer == Whole(d.history[|d.history| - 1])
  {
  }

  lemma NextUpShows(d: Composer, history: seq<seq<Byte>>, line: seq<Byte>)
    requires d.histPos.None? && d.history == Remembered(history, line)
    ensures InRange(d) && Older(d).buffer == Whole(line)
  {
    RememberedIs(history, line);
    LastIsShown(d);
  }

  // A line that is sent empties the input, is the last entry of the history, and
  // is what the next Up shows.
  lemma EnteredLineIsRemembered(c: Composer, now: nat, line: string)
    requires Sound(c.buffer) && line == Trim(InputText(c)) && line != [] && !KeptByClient(c.turn.busy, line)
    ensures
      var d := Entered(c, now);
      && d == Composer(Whole([]), Remembered(c.history, Encode(line)), None, Whole([]), None, 0, SubmitLine(c.turn, line, now).0)
      && InRange(d) && Older(d).buffer == Whole(Encode(line))
  {
    SentIs(c, now, line);
    NextUpShows(Entered(c, now), c.history, Encode(line));
  }

  // A line the client keeps is not remembered, and a blank one changes nothing.
  lemma OtherLinesAreNot(c: Composer, now: nat)
    requires SoundComposer(c)
    requires var line := Trim(InputText(c)); line == [] || KeptByClient(c.turn.busy, line)
    ensures
      var d := Entered(c, now);
      && d.history == c.history && d.turn == c.turn
      && (if Trim(InputText(c)) == [] then d == c else d.buffer == Whole([]) && d.histPos == None)
  {
  }

  // ---- what a key leaves alone ----

  predicate EditsOrBrowses(k: Key)
  {
    k.Type? || k.Go? || k.Erase? || k.Tab? || k.Up? || k.Down?
  }

  // Keys other than Enter leave history alone; keys that edit or browse leave the
  // turn alone, and what comes from the bridge leaves everything but the turn.
  // Typing ends browsing and completing, browsing ends completing. An error, a lost
  // connection and Escape end the turn and drop its queue.
  predicate LeavesAlone(c: Composer, k: Key, d: Composer)
  {
    && (!k.Enter? ==> d.history == c.history)
    && (EditsOrBrowses(k) ==> d.turn == c.turn)
    && (!EditsOrBrowses(k) && !k.Enter? ==> d == c.(turn := d.turn))
    && (k.TurnError? || k.Lost? || (k.Escape? && c.turn.busy) ==> d.turn == FRESH_TURN)
    && (k.Escape? && !c.turn.busy ==> d == c)
    && (k.Up? && c.history != [] ==> d.anchor == None)
    && (k.Down? && c.histPos.Some? ==> d.anchor == None)
    && (k.Type? ==> d.histPos == None && d.anchor == None)
    && (k.Go? ==> d == c.(buffer := c.buffer.(cursor := d.buffer.cursor)))
  }

  lemma EditsLeaveAlone(alphanumeric: char -> bool, c: Composer, k: Key)
    requires Sound(c.buffer)
    ensures k.Type? ==> LeavesAlone(c, k, Typed(alphanumeric, c, k.text))
    ensures k.Erase? ==> LeavesAlone(c, k, Erased(alphanumeric, c, k.motion))
    ensures k.Go? ==> LeavesAlone(c, k, c.(buffer := Edited(alphanumeric, c.buffer, Move(k.motion))))
  {
  }

  lemma BrowsingLeavesAlone(c: Composer, k: Key)
    requires Sound(c.buffer) && InRange(c)
    ensures k.Tab? ==> LeavesAlone(c, k, Completed(c))
    ensures k.Up? ==> LeavesAlone(c, k, Older(c))
    ensures k.Down? ==> LeavesAlone(c, k, Newer(c))
  {
  }

  lemma KeysLeaveAlone(alphanumeric: char -> bool, c: Composer, k: Key)
    requires SoundComposer(c)
    ensures LeavesAlone(c, k, Pressed(alphanumeric, c, k))
  {
    if k.Type? || k.Go? || k.Erase? {
      EditsLeaveAlone(alphanumeric, c, k);
    } else if k.Tab? || k.Up? || k.Down? {
      BrowsingLeavesAlone(c, k);
    }
  }

  // An erasing key takes something away, and ends browsing and completing; or there
  // was nothing to take, and it does nothing.
  lemma ErasingTakesOrDoesNothing(alphanumeric: char -> bool, c: Composer, m: Motion)
    requires Sound(c.buffer)
    ensures
      var d := Erased(alphanumeric, c, m);
      || d == c
      || (|d.buffer.bytes| < |c.buffer.bytes| && d == c.(buffer := d.buffer, histPos := None, anchor := None, compIdx := 0))
  {
    ErasedIs(alphanumeric, c, m);
  }

  // ---- completion ----

  lemma {:induction false} MatchingIs(commands: seq<string>, input: string, command: string)
    ensures command in Matching(commands, input) <==> command in commands && input < command
    decreases |commands|
  {
    if commands != [] {
      MatchingIs(commands[1..], input, command);
    }
  }

  // The commands are offered in the order of the table.
  lemma {:induction false} MatchingInOrder(a: seq<string>, b: seq<string>, input: string)
    ensures Matching(a + b, input) == Matching(a, input) + Matching(b, input)
    decreases |a|
  {
    if a == [] {
      assert a + b == b;
    } else {
      assert (a + b)[1..] == a[1..] + b;
      MatchingInOrder(a[1..], b, input);
    }
  }

  // What Tab offers: the commands the input is a proper beginning of.
  lemma CompletionsAre(input: string, command: string)
    ensures command in Completions(input)
       <==> command in COMMANDS && input != [] && input[0] == '/' && '\n' !in input && input < command
  {
    MatchingIs(COMMANDS, input, command);
  }

  // `n` presses of Tab after `typed`, for which `offered` are the commands.
  function Tabs(c: Composer, typed: string, offered: seq<string>, n: nat): Composer
    requires offered != []
    decreases n
  {
    if n == 0 then c else Tabs(Offered(c, typed, offered), typed, offered, n - 1)
  }

  // A Tab offers the next command for what was typed when the first one was
  // pressed, which the following ones still go by.
  lemma TabOffers(alphanumeric: char -> bool, c: Composer, k: Key, typed: string)
    requires SoundComposer(c) && k.Tab? && typed == TypedAnchor(c)
    ensures Pressed(alphanumeric, c, k) == if Completions(typed) == [] then c else Offered(c, typed, Completions(typed))
    ensures c.anchor.Some? ==> typed == c.anchor.value
    ensures Completions(typed) != [] ==> Offered(c, typed, Completions(typed)).anchor == Some(typed)
  {
  }

  lemma OfferedIs(c: Composer, typed: string, offered: seq<string>, i: nat)
    requires i == (if c.anchor.Some? then c.compIdx else 0) && i + 1 < USIZE_LIMIT && offered != []
    ensures Offered(c, typed, offered) == Offering(c, typed, offered, i)
  {
  }

  // `c` with the `i`-th command offered shown, and the next one due.
  function Offering(c: Composer, typed: string, offered: seq<string>, i: nat): Composer
    requires offered != []
  {
    c.(buffer := Whole(Encode(offered[i % |offered|])), anchor := Some(typed), compIdx := i + 1)
  }

  lemma {:induction false} TabsOffer(c: Composer, typed: string, offered: seq<string>, i: nat, n: nat)
    requires i == (if c.anchor.Some? then c.compIdx else 0) && 0 < n && i + n < USIZE_LIMIT && offered != []
    ensures Tabs(c, typed, offered, n) == Offering(c, typed, offered, i + n - 1)
    decreases n
  {
    OfferedIs(c, typed, offered, i);
    if n > 1 {
      TabsOffer(Offered(c, typed, offered), typed, offered, i + 1, n - 1);
    } else {
      assert Tabs(Offered(c, typed, offered), typed, offered, 0) == Offered(c, typed, offered);
    }
  }

  // The `n`-th Tab in a row shows the `n`-th command offered, over and over, and
  // changes nothing else.
  lemma TabsCycle(c: Composer, typed: string, offered: seq<string>, n: nat)
    requires c.anchor.None? && offered != [] && 0 < n < USIZE_LIMIT
    ensures
      var d := Tabs(c, typed, offered, n);
      && d.buffer == Whole(Encode(offered[(n - 1) % |offered|]))
      && d == c.(buffer := d.buffer, anchor := Some(typed), compIdx := n)
  {
    TabsOffer(c, typed, offered, 0, n);
  }
}
