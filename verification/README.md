# Verification of the TUI conversation subsystem

This project models, in Dafny, the parts of the assistant that carry a terminal
conversation, and proves what they promise.

* **Steering** (`SteeringModel`, `SteeringLedger`, `SteeringFate`, `SteeringAgreement`,
  `SteeringSteps`, `SteeringTheorems`, `SteeringEvents`, `SteeringProgress`, `SteeringHarm`,
  `SteeringAnomalies`, `ClientTurn`, `ClientView`, `Notice`, `Bridge`). The terminal
  client, the WebSocket bridge and the kernel task of the run in flight are three actors
  joined by FIFO channels and by the run's injection registry. Every interleaving of their
  steps is a run of one transition system. The registry is modelled as its code has it: a
  drain takes everything, and stopping a run clears what is left.
* **Composer** (`Utf8`, `EditBuffer`, `Editing`, `ComposerState`, `ComposerHistory`,
  `ComposerApp`). A UTF-8 edit
  buffer with a byte cursor, word and line motions, history and completion. Each byte
  operation refines an operation on characters.
* **Layout** (`Wrapping`, `InputLayout`, `InputCursor`, `InputTightness`). Greedy soft wrapping, placement of
  the rows at byte offsets, and the mapping of the cursor to a row and a column. The width
  of a character is a parameter `cw: char -> nat`.
* **Relation walk** (`RelationGraph`, `WalkState`, `WalkTheorems`, `WalkOrder`, `GraphLists`,
  `RelationWalker`). The capped breadth-first walk against distance in the graph.
* **Hub** (`HubModel`, `HubTheorems`, `HubLag`, `TuiHubState`). A broadcast topic with a bounded
  backlog, a delivery split where the lock is released, and subscribers that read from a ring
  of 128 messages.
* **Codecs and renderers** (`Percent`, `Hex`, `HexSecrets`, `TextLines`, `HtmlText`, `HtmlEntities`,
  `TagRendering`, `Compaction`,
  `MessageBody`, and truncation in `Utf8`).
* **Identity and addressing** (`SessionNames`, `Addressing`, `DeliverySink`, `MemoryIdentity`,
  `ArgumentRewrite`, `RecallMessages`, `Recall`, `AgentChain`, `Speaker`, `Usage`).

Code that changes state step by step is a class or a method with loops, proved against a
specification function, and the theorems are about those functions. The hub is the exception:
its theorems are about the state machine of one participant, and `TuiHubState` proves that each
method moves that participant's state as the machine does. `dafny verify dfyconfig.toml` checks
the whole project.

## Assumptions

* One run has one registry entry, and the bridge is its only submitter.
* The neighbour query returns exactly the stored relations of the scope that touch the
  frontier, in any order and possibly more than once (`WalkTheorems.Exact`); relation ids
  are unique.
* A session lookup by owner and scope always finds the same session.
* `char::is_alphanumeric`, the display width of a character and the replacement decoding of
  invalid UTF-8 are parameters: they are library tables. Clock readings are parameters.

## What the proofs brought to light

* *A steered prompt can be lost.* `on_stop` clears the registry before the final event is
  sent, while earlier events may still be buffered. The bridge reads a pending count of zero
  at such an event and takes the discarded prompts for consumed. `CompletedTurnFate` states
  exactly when: a reading counted discarded prompts. `PromptCanBeLost` is a run.
* *A steered prompt can be given to the model twice.* If no non-final event follows the last
  drain, the mirror still holds the drained prompts and the follow-up turn repeats them
  (`CompletedTurnFate`, `PromptCanBeRepeated`).
* *A tool named "compact" can break the queue agreement* (`CompactToolBreaksAgreement`): while
  it runs the client does not queue, but a busy bridge treats the prompt as steering, and the
  next reply ends the client's turn. `RunAgrees` states exactly when `Agreement`, the invariant
  of queues, channels and modes together, survives:
  under such a tool a line that is no command is sent only when the bridge is idle, nothing is
  on its way to it and each `final` in flight is followed by a notice; and a reply that ends the
  turn is read only when something is queued, or the bridge is idle, nothing is on its way to it
  and no `final` is in flight. Right after a step outside its guard the queues can still match,
  but some plain continuation makes client and bridge visibly disagree (`UnguardedStepBreaks`).
  Runs without such a tool need no condition (`UsualRunsAreHarmless`).
* A counted notice reads back as the count it was printed from exactly when that count is
  not zero (`NoticeRoundTrip`); the bridge never prints zero.
* The hub can deliver a message to one subscriber by both routes (`SeenTwice`) or to nobody
  (`LostBetween`) when a subscription or a disconnect falls between decision and send.
* Escaped text is unescaped by the renderer but not by body normalisation, which leaves a
  body without tags alone (`RenderInvertsEscape`, `EscapedIsUnchanged`).
* A rendered list at the very start of a body begins with an empty line, which compaction takes
  away (`DocumentRenders`).
* A message on the topic can be lost to lag: a subscriber misses exactly the messages it comes
  to read after 128 later ones (`GotExactlyWhenNotOvertaken`).
* Identity groups that overlap can give the identities of one person different owners, and a
  canonical owner that does not stand for itself (`OverlapSplitsAPerson`). They need not
  (`OverlapMaySplitNobody`): `GroupSharesExactlyWhen` and `CanonicalSettlesExactlyWhen` state
  exactly when they do.
* Rewriting the tool arguments a second time can change them (`BlankOwnerDrifts`). It changes
  nothing exactly when the class is agent-global, or no owner is written, or the owner that is
  read back (the subject's own in place of a blank one) has the written one as its canonical
  owner (`NormalizeSettlesExactlyWhen`). It never changes anything exactly when every canonical
  owner stands for itself and only blank owners are folded into a blank one
  (`RewritesSettleExactlyWhen`).
* The chosen speaker depends on how the sort arranges equals exactly when the margin is zero and
  the best match reaches the threshold and ties with a different one (`OrderMattersExactlyWhen`).
* Printed secrets come back exactly when no reference holds a tab or a newline
  (`PrintedComesBack`).

## Model

| member | source | states |
|---|---|---|
| `Notice.NoticeRoundTrip` | app/src/tui_client.rs:890-898 | a printed notice parses back to the count it was printed from, if and only if the count is not zero |
| `Notice.DecimalRoundTrip` | app/src/tui_ws.rs:813-819 | the printed decimal is all digits and denotes the number it was printed from |
| `Notice.NoticeCountExactly` | app/src/tui_client.rs:890-898 | a text is a notice of a count exactly when it begins with the words and what follows, spaces aside, is nothing, for one, or the number in brackets |
| `Notice.ParseUsizeExactly` | app/src/tui_client.rs:890-898 | a count is read from digits alone, with a plus sign or not, whose number is below 2^64 |
| `ClientTurn.TransitionsStayCoherent` | app/src/tui_client.rs:466-497 | every turn transition keeps "busy exactly when a start time is set" and "queued input implies busy" |
| `ClientTurn.SubmittingComesTo` | app/src/tui_client.rs:1999-2042 | a steering line only joins the queue; `/compact` and any other line that is no command make the client busy, a running timer kept; other commands change nothing of a turn and start none |
| `ClientTurn.KeptExactlyWhen` | app/src/tui_client.rs:1944-1966 | a line is kept by the client exactly when its part before the first space is `/session`, or is `/agent` while no turn is active |
| `ClientView.EventsShow` | app/src/tui_client.rs:485-497 | while events are read the queue stays, the client is busy until a `final` is read with nothing queued, the timer runs as long, and the tool shown is the one started last and not completed |
| `SteeringLedger.StepKeepsLedger` | app/src/tui_ws.rs:616-753 | every step of client, bridge and kernel keeps the ledger: the mirror is what the run accepted minus what was dropped, the history flags say where drained and dropped differ, and received prompts are those fed plus those outstanding |
| `SteeringLedger.RunKeepsLedger` | app/src/tui_ws.rs:411-470 | the ledger holds after any possible sequence of steps |
| `SteeringLedger.PendingIsSuffixOfMirror` | app/src/tui_ws.rs:630-703 | in every reachable state with a turn in flight the registry's pending list is a suffix of the prompts the bridge holds |
| `SteeringLedger.CompletedTurnFate` | app/src/tui_ws.rs:755-811 | when a turn completes, drained plus carried-over prompts are the accepted ones in order and once each, if and only if a reading followed the last drain and none counted cleared prompts; otherwise the stretch lost or repeated is named |
| `SteeringLedger.CleanRunsFeedInOrder` | app/src/tui_ws.rs:501-526 | while each completed turn dropped what it drained, the model was given the received prompts in order of arrival, none missing or twice, the outstanding ones still to come |
| `SteeringFate.CleanExactlyWhenFedInOrder` | app/src/tui_ws.rs:755-811 | for prompts that are all different this is an equivalence: each completed turn dropped what it drained if and only if the model was given them in order, and if and only if no prompt is missing (received, neither given nor to come) or given twice |
| `SteeringLedger.DrainKeepsLedger` | crabgent/crabgent-hook-inject/src/lib.rs:123-129 | a drain moves the whole pending list to the drained side and leaves the accepted list as it was |
| `SteeringLedger.StopKeepsLedger` | crabgent/crabgent-hook-inject/src/lib.rs:226-228 | stopping clears the registry and keeps the ledger, the cleared prompts accounted for |
| `SteeringEvents.TakenIsForwarded` | app/src/tui_ws.rs:630-682 | an event taken from the run is the last frame sent |
| `SteeringEvents.EveryEventIsPassedOn` | app/src/tui_ws.rs:630-682 | in every run the events emitted are, in order and once each, those the client has read, those under way to it and those the bridge has not taken yet |
| `SteeringEvents.EveryLineIsAnswered` | app/src/tui_ws.rs:684-703 | in every plain run each command taken has its one reply and each prompt mirrored its one queued-notice, read or under way, in order |
| `SteeringEvents.EveryLineArrives` | app/src/tui_ws.rs:389-410 | in every run the lines submitted are, in order, those taken and those on their way, and of those taken every one but the commands is received |
| `SteeringEvents.ChannelIsFifo` | app/src/tui_client.rs:1135-1189 | frames are read in the order they are sent, none lost |
| `SteeringEvents.OnlyChatterIsChatter` | app/src/tui_ws.rs:717-750 | what else the bridge has to tell is sent when it is told, and at no other time |
| `SteeringProgress.EveryRunCanRest` | app/src/tui_ws.rs:411-470 | every run can be continued without a further line to a state with everything read, nothing on its way and no turn in flight |
| `SteeringSteps.StepAgrees` | app/src/tui_ws.rs:351-470 | a plain step keeps the agreement between the client's queue and the bridge, channels included, if and only if it is taken under its guard, which asks nothing of any step but the two below |
| `SteeringSteps.SubmitAgrees` | app/src/tui_client.rs:1999-2042 | submitting a line, plain, steering or command, keeps the agreement, except that a line that is no command, sent while busy with a tool named "compact", keeps it if and only if the bridge is idle, nothing is on its way to it, and each `final` in flight is followed by a notice |
| `SteeringSteps.ClientReceiveAgrees` | app/src/tui_client.rs:1135-1189 | reading any frame, counted notices and finals included, keeps the agreement, except that of `CompactionEndAgrees` |
| `SteeringSteps.CompactionEndAgrees` | app/src/tui_client.rs:1135-1189 | reading a reply that ends the turn of a tool named "compact" keeps it if and only if something is queued, or the bridge is idle with nothing on its way to it and no `final` in flight |
| `SteeringSteps.ReconcileAgrees` | app/src/tui_ws.rs:801-811 | popping consumed prompts and announcing them keeps the agreement |
| `SteeringSteps.FinishAgrees` | app/src/tui_ws.rs:770-776 | completing a turn, with or without a follow-up, keeps the agreement |
| `SteeringSteps.AcknowledgePops` | app/src/tui_client.rs:1382-1389 | a counted notice at the head of the channel pops exactly the batch at the head of the acknowledged ones |
| `SteeringTheorems.RunAgrees` | app/src/tui_ws.rs:411-470 | over any possible sequence of plain steps the invariant `Agreement` holds throughout if and only if each step is taken under its guard |
| `SteeringTheorems.UsualRunsAreHarmless` | app/src/tui_client.rs:495-497 | in a run that starts no tool named "compact" every step is under its guard |
| `SteeringModel.GoalCommands` | app/src/tui_ws.rs:999-1042 | a `/goal` line starts nothing by itself exactly when it asks for the goal, pauses it or clears it |
| `SteeringHarm.UnguardedStepBreaks` | app/src/tui_client.rs:495-497 | after any step outside its guard some plain run leads to a state in which the client's queue is not what is held or under way, or the client is idle although something runs or is on its way |
| `SteeringHarm.LeavingTheGuardsBreaks` | app/src/tui_ws.rs:411-470 | a plain run from the start that leaves the guards at some step could have gone on from that step to such a state |
| `SteeringTheorems.ClientAndServerQueuesAgree` | app/src/tui_client.rs:1135-1142 | in every plain run under these guards the client's queue is the prompts whose notice is under way, then what the bridge holds, then the steering prompts under way; an idle client means an idle bridge and no final in flight |
| `SteeringTheorems.NothingStaysQueued` | app/src/tui_client.rs:1382-1389 | in such a run, once the channels are empty and the bridge is idle, the client has nothing queued |
| `SteeringTheorems.NoticePopsWhatItAcknowledges` | app/src/tui_client.rs:1135-1142 | in such a run, whenever the client reads a counted notice it removes exactly the prompts that notice was printed for |
| `SteeringAnomalies.PromptCanBeLost` | crabgent/crabgent-core/src/run/stream.rs:149-175 | a run in which a steered prompt is never given to the model |
| `SteeringAnomalies.PromptCanBeRepeated` | app/src/tui_ws.rs:770-776 | a run in which a steered prompt is given to the model twice |
| `SteeringAnomalies.CompactToolBreaksAgreement` | app/src/tui_client.rs:495-497 | a plain run in which a tool named "compact" makes client and bridge disagree; the exact condition is `SteeringTheorems.RunAgrees` |
| `Bridge.PromptMirror.DropConsumed` | app/src/tui_ws.rs:787-794 | the pop loop drops exactly the surplus over the pending count from the front, and reports how many |
| `Bridge.PromptMirror.Reconcile` | app/src/tui_ws.rs:801-811 | nothing is dropped at the final event, the surplus at any other |
| `Utf8.FromUtf8Inverts` | app/src/tui_client.rs:349-352 | decoding inverts encoding, so the valid byte strings are exactly the encodings (section 3 of RFC 3629) |
| `Utf8.CutAtBoundary` | app/src/tui_client.rs:574-586 | a character boundary of an encoding lies between two characters and cuts the text there |
| `Utf8.BoundaryCutsValid` | app/src/tui_client.rs:417-464 | both parts of a valid string cut at a boundary are valid |
| `Utf8.ValidConcat` | app/src/tui_client.rs:387-391 | joining valid strings is valid, and the seam is a boundary |
| `Utf8.BoundaryWithinFour` | app/src/error_audit_hook.rs:117-119 | among any four consecutive positions of a valid string one is a boundary |
| `Utf8.Cut` | app/src/error_audit_hook.rs:116-120 | the kept part is the longest prefix within the cap that ends on a boundary, is valid, and at most three bytes short of the cap |
| `Utf8.Capped` | app/src/error_audit_hook.rs:113-120 | text within the cap is kept whole, longer text is cut at the last boundary within it |
| `Utf8.Truncate` | app/src/memory_recall_hook.rs:407-418 | the same with an ellipsis, the result valid UTF-8 |
| `EditBuffer.PrevRefines` | app/src/tui_client.rs:574-579 | the previous boundary in bytes is one character back in text |
| `EditBuffer.NextRefines` | app/src/tui_client.rs:581-586 | the next boundary in bytes is one character on in text |
| `EditBuffer.SkipLeftRefines` | app/src/tui_client.rs:600-619 | the backward word scan over bytes is the scan over characters |
| `EditBuffer.SkipRightRefines` | app/src/tui_client.rs:621-640 | the forward word scan over bytes is the scan over characters |
| `EditBuffer.LineStartRefines` | app/src/tui_client.rs:588-590 | the start of the line in bytes is the start of the line in text |
| `EditBuffer.LineEndRefines` | app/src/tui_client.rs:592-594 | the end of the line in bytes is the end of the line in text |
| `Editing.TargetRefines` | app/src/tui_client.rs:393-415 | every motion leads to the byte offset of the position it leads to on text |
| `Editing.EditRefines` | app/src/tui_client.rs:381-464 | insertion, motion and deletion on bytes do what they do on characters |
| `Editing.EditKeepsSound` | app/src/tui_client.rs:381-464 | every edit keeps the buffer valid UTF-8 with the cursor on a boundary inside it |
| `Editing.WordLeftIs` | app/src/tui_client.rs:600-619 | a backward word motion crosses what is between words and then one whole word, no more and no less; underscores are in words |
| `Editing.WordRightIs` | app/src/tui_client.rs:621-640 | so does a forward one |
| `Editing.OtherMotionsAre` | app/src/tui_client.rs:393-415 | the other motions go one character, or to the edge of the line |
| `Editing.BackspaceUndoesTyping` | app/src/tui_client.rs:417-428 | deleting to the left takes back the character typed last, bytes and cursor |
| `ComposerState.PressKeepsSound` | app/src/tui_client.rs:1943-2169 | every key and every received frame keeps the composer sound: buffer, cursor, draft, history and turn |
| `ComposerState.SessionStaysSound` | app/src/tui_client.rs:1943-2169 | the same over any sequence of keys and frames |
| `ComposerState.BrowsingReturnsTheDraft` | app/src/tui_client.rs:2061-2087 | whatever is pressed while browsing history, short of editing or submitting, leaving the browser brings back the draft and its cursor |
| `ComposerState.UpsThenDownsRestore` | app/src/tui_client.rs:2061-2087 | any number of Ups and as many Downs as entries were passed restore text and cursor exactly |
| `ComposerHistory.UpsThenDownsShow` | app/src/tui_client.rs:2061-2087 | `n` Ups show the `n`-th entry from the end, or the first; `m` Downs from there the one `m` entries later |
| `ComposerHistory.EnteredLineIsRemembered` | app/src/tui_client.rs:2002-2010 | a line that is sent empties the input, is the last entry of the history, undoubled, and is what the next Up shows |
| `ComposerHistory.OtherLinesAreNot` | app/src/tui_client.rs:1943-1999 | a line the client keeps is not remembered, a blank one changes nothing |
| `ComposerHistory.KeysLeaveAlone` | app/src/tui_client.rs:1943-2169 | only Enter changes the history, editing and browsing leave the turn alone, frames leave all but the turn alone, and typing ends browsing and completing |
| `ComposerHistory.ErasingTakesOrDoesNothing` | app/src/tui_client.rs:417-464 | an erasing key takes something away and ends browsing and completing, or there was nothing to take and it does nothing |
| `ComposerHistory.CompletionsAre` | app/src/tui_client.rs:94-103 | the commands offered are exactly those the input is a proper beginning of |
| `ComposerHistory.MatchingInOrder` | app/src/tui_client.rs:94-103 | they are offered in the order of the table |
| `ComposerHistory.TabsCycle` | app/src/tui_client.rs:2046-2059 | the `n`-th Tab in a row shows the `n`-th command offered, over and over, and changes nothing else |
| `ComposerHistory.TabOffers` | app/src/tui_client.rs:2046-2059 | a Tab offers the next command for what was typed when the first one was pressed |
| `ComposerApp.FindPreviousWordBoundary` | app/src/tui_client.rs:600-619 | the two scanning loops find the word boundary of the specification |
| `ComposerApp.App.InsertText` | app/src/tui_client.rs:381-391 | inserting leaves the composer in the specified state |
| `ComposerApp.App.MoveCursor` | app/src/tui_client.rs:393-415 | a motion leaves the composer in the specified state |
| `ComposerApp.App.EraseTo` | app/src/tui_client.rs:417-464 | a deletion leaves the composer in the specified state |
| `ComposerApp.App.BrowseOlder` | app/src/tui_client.rs:2061-2073 | Up leaves the composer in the specified state |
| `ComposerApp.App.BrowseNewer` | app/src/tui_client.rs:2074-2087 | Down leaves the composer in the specified state |
| `ComposerApp.App.StartBusy` | app/src/tui_client.rs:477-483 | the turn becomes busy as specified, a running timer kept |
| `ComposerApp.App.FinishTurn` | app/src/tui_client.rs:485-493 | the turn finishes as specified, staying busy while input is queued |
| `ComposerApp.App.CommitQueuedInputs` | app/src/tui_client.rs:1382-1389 | the first `count` queued inputs, or all of them, are taken off in order |
| `ComposerApp.App.Submit` | app/src/tui_client.rs:1943-2043 | Enter leaves the composer in the specified state and sends the frame the protocol model sends |
| `Wrapping.WrapCovers` | app/src/tui_client.rs:692-736 | the rows are the line, cut into non-empty pieces |
| `Wrapping.WrapFits` | app/src/tui_client.rs:712-727 | each row fits when every character does |
| `Wrapping.WrapIsMaximal` | app/src/tui_client.rs:716-726 | no row could take the next row's first character |
| `Wrapping.OnlyWideCharsOverflow` | app/src/tui_client.rs:712-727 | a row that does not fit holds one character too wide for any row behind characters of no width, and only the last row can be without width |
| `Wrapping.WrapOfSuffix` | app/src/tui_client.rs:692-736 | dropping characters from the front never costs a row |
| `Wrapping.WrapIsOptimal` | app/src/tui_client.rs:692-736 | no contiguous split of the line into rows that fit uses fewer rows |
| `InputLayout.SplitJoin` | app/src/tui_client.rs:742-745 | joining the logical lines at newlines gives the text |
| `InputLayout.LinesChain` | app/src/tui_client.rs:738-745 | the rows of the lines lie end to end, one byte skipped at each hard break, and read back as the text |
| `InputLayout.LayoutRoundTrip` | app/src/tui_client.rs:738-758 | for every text, cursor and width the rows cover the text contiguously and reading them back gives it |
| `InputLayout.CursorRowContainsCursor` | app/src/tui_client.rs:760-772 | the search finds a row, so the fallback is never used, and the row's range contains the cursor |
| `InputLayout.RowText` | app/src/tui_client.rs:718-735 | a row's text is the part of the text at the row's byte range |
| `InputCursor.ColumnMeasuresText` | app/src/tui_client.rs:773-778 | the column counts exactly the text between the row's start and the cursor |
| `InputCursor.CursorIsPlaced` | app/src/tui_client.rs:738-785 | for every cursor on a boundary: the row is found without fallback, contains the cursor, and the column is the width of the text up to it |
| `InputCursor.CursorFits` | app/src/tui_client.rs:747-758 | the column never exceeds the width, and at the end of the text is strictly less |
| `InputCursor.WindowContainsCursor` | app/src/tui_client.rs:788-790 | the visible window contains the cursor row, and no window that starts earlier does |
| `InputTightness.LayoutIsTight` | app/src/tui_client.rs:738-758 | a row begins within a line of the text only where the row above could not take what comes next, the cursor behind the text included |
| `InputTightness.CursorStaysWhereThereIsRoom` | app/src/tui_client.rs:747-758 | behind a line that leaves room the cursor is on that line's row, in the column of its width |
| `InputTightness.OnlyFirstRowIsMarked` | app/src/tui_client.rs:692-736 | only the first row carries the prompt marker |
| `InputTightness.CursorIsOnLastRow` | app/src/tui_client.rs:760-775 | of the rows that contain the cursor it is on the last, so at a soft break on the lower one |
| `InputCursor.PushWrappedInputRows` | app/src/tui_client.rs:692-736 | the scanning loop appends exactly the rows of the line |
| `InputCursor.RowsOfText` | app/src/tui_client.rs:738-745 | the loop over lines builds exactly the rows of the text |
| `InputCursor.WrappedInputLayout` | app/src/tui_client.rs:738-785 | the whole procedure computes the specified layout |
| `RelationGraph.BallIsReachable` | app/src/web_admin.rs:507-527 | the ball of so many hops holds exactly the nodes some path of at most that many edges leads to |
| `WalkState.AddNodesAdds` | app/src/web_admin.rs:545-556 | adding endpoints visits all of them unless the cap stops it, which leaves one out with the cap reached |
| `WalkState.DedupKeepsOne` | app/src/web_admin.rs:527-543 | the roots are kept once each |
| `WalkState.RecordEdgesRecords` | app/src/web_admin.rs:558-572 | a relation is recorded unless its id already was, with the given depth |
| `WalkTheorems.LevelStep` | app/src/web_admin.rs:512-525 | one level turns the nodes within k hops into those within k + 1, or stops at the cap; its edges are recorded either way |
| `WalkTheorems.WalkIsExact` | app/src/web_admin.rs:498-556 | nodes are distinct and within depth; all are listed unless truncated, which holds exactly when they are more than 180 and more than the roots, and never are more listed than that; each edge incident to a walked level is listed once with depth one plus the smaller distance of its endpoints |
| `WalkTheorems.RelationIsListed` | app/src/web_admin.rs:558-572 | a wanted relation below the walked level is listed with its id, its two ends in their direction, its kind, and the depth its distance gives |
| `WalkOrder.EdgesTellTheStore` | app/src/web_admin.rs:498-572 | every listed edge is a stored relation, direction and kind kept, of the kind asked for; every such relation nearer than the walked level is listed, one deeper than its nearer end is far |
| `WalkOrder.NodesInOrderOfDistance` | app/src/web_admin.rs:498-556 | the roots come first, and no node is listed before one that is nearer |
| `WalkOrder.DistinctRootsAsGiven` | app/src/web_admin.rs:527-543 | roots given once each are listed as given |
| `WalkTheorems.NoDanglingEdges` | app/src/web_admin.rs:498-527 | unless truncated, no listed edge leaves the listed nodes |
| `RelationWalker.RelationWalk.AddNode` | app/src/web_admin.rs:545-556 | one node is added as specified |
| `RelationWalker.RelationWalk.RecordEdge` | app/src/web_admin.rs:558-572 | one edge is recorded as specified |
| `RelationWalker.RelationWalk.TakeLevel` | app/src/web_admin.rs:513-524 | the loop over neighbours skips unwanted types and does what the level specifies |
| `RelationWalker.RelationWalk.RetainConnected` | app/src/web_admin.rs:574-596 | without edges nothing changes; with edges nodes and roots no edge touches are dropped, in order; what was listed once stays listed once |
| `RelationWalker.WalkRelations` | app/src/web_admin.rs:498-527 | the loop over levels computes the specified walk |
| `GraphLists.ConnectedHasDegree` | app/src/web_admin.rs:585-596 | a node is connected exactly when its degree is positive |
| `GraphLists.KeptAreConnected` | app/src/web_admin.rs:574-583 | when no edge leaves the listed nodes, those kept are exactly the ones some edge touches |
| `GraphLists.RetainKeepsOrder` | app/src/web_admin.rs:574-583 | of two nodes kept the one listed first stays first |
| `GraphLists.GraphDegrees` | app/src/web_admin.rs:615-622 | the map holds each node's degree, no zeros, and sums to twice the number of edges |
| `HubModel.StepKeepsSound` | app/src/tui_channel.rs:47-99 | every half-step of a delivery, subscription or disconnect keeps the hub's invariant |
| `HubTheorems.ReachableIsSound` | app/src/tui_channel.rs:47-99 | the invariant holds after any interleaving |
| `HubTheorems.OncePerRoute` | app/src/tui_channel.rs:47-69 | a subscriber gets a delivery at most once from the backlog and at most once on the topic |
| `HubTheorems.BacklogsAreDisjoint` | app/src/tui_channel.rs:47-69 | the backlog hands a delivery to one subscriber only |
| `HubTheorems.SeenTwiceExactlyWhenInFlight` | app/src/tui_channel.rs:77-99 | both routes reach one subscriber exactly when it took the delivery from the backlog while its send was outstanding |
| `HubTheorems.HearsAllWhileThere` | app/src/tui_channel.rs:77-99 | a subscriber that stays hears on the topic every delivery decided after it came, once its send is made |
| `HubTheorems.LostOnlyThroughTheCap` | app/src/tui_channel.rs:84-90 | a delivery decided without a receiver is kept for its subscription exactly when fewer than 64 later ones fell to it |
| `HubTheorems.DirectLostExactlyWhenMissed` | app/src/tui_channel.rs:94-98 | a delivery decided with a receiver is put into no receiver exactly when its send found nobody; what is read of it is `HubLag.DirectReachesExactlyWhen` |
| `HubTheorems.AtomicDelivery` | app/src/tui_channel.rs:77-99 | with atomic steps the backlog is the last 64 or fewer deliveries without a receiver since the previous subscription, nobody is given one twice, and every other one is put into some receiver |
| `HubTheorems.SeenTwice` | app/src/tui_channel.rs:77-99 | a run in which one subscriber gets a delivery by both routes |
| `HubTheorems.LostBetween` | app/src/tui_channel.rs:77-99 | a run in which a delivery reaches nobody |
| `HubLag.MovesKeepReaders` | app/src/tui_ws.rs:360-373 | over any interleaving of hub steps and reads, a subscriber has got what its receiver was sent, in order, but for the positions it skipped |
| `HubLag.LostOrOvertaken` | app/src/tui_ws.rs:360-373 | a position is skipped exactly when the subscriber reads while it is unread and 128 or more messages have come after it |
| `HubLag.GotExactlyWhenNotOvertaken` | app/src/tui_ws.rs:717-733 | of the messages a subscriber is past it got, once each and in order, exactly those that were not so overtaken |
| `HubLag.GotExactlyWhenReadInTime` | app/src/tui_ws.rs:360-373 | a subscriber, still there or gone, has got a delivery exactly when it was put into its receiver, is behind its reader and was not overtaken |
| `HubLag.DirectReachesExactlyWhen` | app/src/tui_ws.rs:717-733 | a delivery decided with a receiver and sent has been got by somebody exactly when somebody so read it, which nobody did when its send found nobody |
| `TuiHubState.TuiHub.SubscribeWithBacklog` | app/src/tui_channel.rs:47-69 | the subscriber joins the topic, made if need be, and takes the whole backlog; other participants are untouched |
| `TuiHubState.TuiHub.Decide` | app/src/tui_channel.rs:78-93 | under the lock the delivery joins the bounded backlog exactly when nobody listens |
| `TuiHubState.TuiHub.Send` | app/src/tui_channel.rs:94-98 | after the lock the delivery is put into every receiver the topic has then |
| `TuiHubState.TuiHub.Deliver` | app/src/tui_channel.rs:77-99 | a whole delivery is heard by every receiver or joins the backlog, and touches no other participant |
| `TuiHubState.ViewFollowsModel` | app/src/tui_channel.rs:47-99 | what each method does to a participant's state is the corresponding step of the state machine, the backlog taken included |
| `TuiHubState.DeliveryIsAtomicStep` | app/src/tui_channel.rs:77-99 | a whole delivery is the atomic step |
| `TuiHubState.ViewRunFollowsModel` | app/src/tui_channel.rs:47-99 | any sequence of the methods' effects is the machine's run of those steps |
| `TuiHubState.HubFollowsModel` | app/src/tui_channel.rs:41-45 | from the empty hub on, so the hub's states are states of the machine's sound runs |
| `Percent.EncodersAgree` | app/src/tui_client.rs:1751-1764 | the formatting encoder and the table encoder are the same function on every byte string |
| `Percent.ByteIsKeptOrSpelled` | app/src/openai_oauth.rs:545-557 | either encoder keeps exactly the unreserved characters (section 2.3 of RFC 3986) and spells any other byte as a percent sign and two upper-case digits |
| `Percent.EncodedIsUrlSafe` | app/src/tui_client.rs:1751-1764 | an encoding holds only unreserved characters and percent signs |
| `Percent.PctEncode` | app/src/openai_oauth.rs:545-557 | the loop encodes byte by byte as specified |
| `Percent.QueryComponent` | app/src/tui_client.rs:1751-1764 | the loop encodes byte by byte as specified |
| `Percent.DecodeLazily` | app/src/cron_delivery.rs:207-232 | the lazily copying loop computes the plain recursive decoding of every input, and copies exactly when something was decoded |
| `Percent.DecodeInverts` | app/src/cron_delivery.rs:207-232 | decoding inverts both encoders on every byte string (section 2.1 of RFC 3986) |
| `Percent.PercentDecode` | app/src/cron_delivery.rs:226-232 | the string result is the decoded bytes when they are UTF-8, else their lossy reading |
| `Percent.RecipientSurvives` | app/src/cron_delivery.rs:200-205 | a percent-encoded recipient decodes to the bytes it was made from |
| `HexSecrets.DecodeHexSecret` | app/src/config.rs:909-924 | decoding succeeds exactly on even-length hex, halves the length, reports an odd length first, and pairs the digits |
| `HexSecrets.DecodedInverts` | app/src/config.rs:909-924 | decoding inverts two-digit hex encoding in either case |
| `HexSecrets.LineIsRefusedExactlyWhen` | app/src/config.rs:893-924 | exactly when a line is malformed, its hex odd, not hex, or no text, in that order |
| `HexSecrets.FirstRefusalDecides` | app/src/config.rs:893-907 | the error is that of the first line refused |
| `HexSecrets.OutputIsText` | app/src/config.rs:893-907 | the references are blamed exactly when the output is no UTF-8 |
| `HexSecrets.ParseSecretctlManyOutput` | app/src/config.rs:893-907 | the loop parses line by line, stopping at the first error |
| `HexSecrets.PrintedComesBack` | app/src/config.rs:893-907 | parsing printed lines gives back the map, later entries winning, if and only if no reference holds a tab or newline |
| `TextLines.LinesOfJoin` | app/src/tui_channel.rs:249 | joined clean lines are read back by `lines` |
| `TextLines.BothEndingsEndALine` | app/src/tui_channel.rs:249 | either line ending ends a line and belongs to none, a lone carriage return stays |
| `HtmlText.PushUnescaped` | app/src/tui_channel.rs:183-202 | the entity loop computes the recursive decoding, stray ampersands kept |
| `HtmlText.RenderLoop` | app/src/tui_channel.rs:130-146 | the tag loop computes the recursive rendering, stray brackets kept |
| `HtmlText.RenderInvertsEscaping` | app/src/tui_channel.rs:130-221 | however each character of a text is escaped, rendering gives the text back |
| `HtmlText.RenderInvertsEscape` | app/src/tui_channel.rs:204-221 | in particular the usual escaping of the five markup characters |
| `HtmlEntities.NumberedCharactersDecode` | app/src/tui_channel.rs:206-221 | every character written by its number, decimal or hexadecimal, comes back, and no other number stands for one |
| `HtmlEntities.NamedCharactersDecode` | app/src/tui_channel.rs:206-213 | five names stand for their characters and no other name for any |
| `HtmlEntities.UnknownEntityStays` | app/src/tui_channel.rs:183-204 | what stands for no character stays as written |
| `HtmlEntities.NoMarkupNoChange` | app/src/tui_channel.rs:130-146 | text without a semicolon and a closing bracket renders to itself |
| `TagRendering.TagIsKnownByName` | app/src/tui_channel.rs:148-162 | a tag is known by its name in letters of either case, opening or closing, whatever its attributes |
| `TagRendering.SelfClosingTag` | app/src/tui_channel.rs:148-162 | a tag that closes itself is the tag opened |
| `TagRendering.InlineRenders` | app/src/tui_channel.rs:148-181 | running text with bold, italic and code nested at will, its characters escaped, renders to its Markdown |
| `TagRendering.DocumentRenders` | app/src/tui_channel.rs:130-181 | a document of paragraphs and lists renders to their Markdown, one blank line after each, an empty line first if it begins with a list |
| `TagRendering.BreaksAndFences` | app/src/tui_channel.rs:163-181 | a break ends the line once, a preformatted block stands between fences, an ordered list is spaced as an unordered one |
| `Compaction.CompactIsTidy` | app/src/tui_channel.rs:246-266 | the result has trimmed lines, never two adjacent blank ones and no blank edges |
| `Compaction.CompactKeepsSolidLines` | app/src/tui_channel.rs:246-266 | the sequence of trimmed non-blank lines survives |
| `Compaction.CompactKeepsParagraphs` | app/src/tui_channel.rs:246-266 | lines stay in the paragraphs they were in: what a blank line separates stays separate, and nothing else is |
| `Compaction.CompactIsIdempotent` | app/src/tui_channel.rs:246-266 | compacting twice is compacting once |
| `Compaction.CompactRenderedHtml` | app/src/tui_channel.rs:246-266 | the loop on one output string with its blank-line counter and final trim computes the specified result |
| `MessageBody.NormalizeTuiBody` | app/src/tui_channel.rs:113-118 | bodies that look like HTML are rendered and compacted, all others left alone |
| `MessageBody.LooksLikeHtmlExactlyWhen` | app/src/tui_channel.rs:120-128 | a body looks like HTML exactly when it holds, in either case, an opening or closing tag whose name starts like a rendered one |
| `MessageBody.RenderedIsCompact` | app/src/tui_channel.rs:113-118 | a body that looks like HTML comes out compacted |
| `MessageBody.PlainIsUnchanged` | app/src/tui_channel.rs:113-128 | whatever rendering does, a body without a tag is left exactly as it is |
| `MessageBody.EscapedIsUnchanged` | app/src/tui_channel.rs:113-128 | escaped text stays escaped |
| `MessageBody.FirstLineCapped` | app/src/error_audit_hook.rs:105-121 | the first solid line, trimmed, is kept whole or cut at the last boundary within the cap, valid and at most three bytes short |
| `MessageBody.FirstLineIs` | app/src/error_audit_hook.rs:105-112 | the line taken is the first that is not blank, trimmed |
| `SessionNames.BothEndsAgree` | app/src/tui_client.rs:1721-1743 | the client's rules and the server's, each written as its own end has them, judge every argument alike, errors included |
| `SessionNames.MainExactlyWhenUnnamed` | app/src/tui_ws.rs:161-168 | the server reads the main session exactly from no argument, a blank one, or "main" in any case |
| `SessionNames.OwnExactlyWhenNamed` | app/src/tui_ws.rs:161-184 | it reads a session of its own exactly from that session's name with any surrounding whitespace |
| `SessionNames.ServerReadsClientName` | app/src/tui_client.rs:1721-1743 | the sessions the client can put into a request are exactly those the server reads back as themselves |
| `SessionNames.RefusedForTheFirstRule` | app/src/tui_ws.rs:161-184 | a name that is refused is refused for the first rule it breaks: length, control characters, slash |
| `Addressing.ConvParsesBack` | app/src/tui_channel.rs:344-360 | for every non-blank slash-free agent the conversation parses back to its topic, agent and session |
| `Addressing.TopicFromConvIs` | app/src/tui_channel.rs:344-349 | a conversation names a topic exactly when it is that topic behind the scheme, and the topic is not blank |
| `Addressing.AgentComesBackExactlyWhenSlashFree` | app/src/tui_channel.rs:344-349 | the agent comes back exactly when its name has no slash |
| `Addressing.ConvIsInjective` | app/src/tui_ws.rs:194-202 | different agents or sessions never share a conversation string |
| `Addressing.NotifyStaysWithParticipant` | app/src/tui_channel.rs:361-373 | from any subject a notification goes to a topic of the participant, filed under the matching conversation |
| `Addressing.NotifyIsExact` | app/src/tui_channel.rs:361-373 | into a conversation of the participant's own it goes as it is, from anywhere else to the main session |
| `Addressing.NotifyFollowsTheBridge` | app/src/tui_channel.rs:361-373 | from a bridged session it goes to that very session for its own agent, to the main session of any other |
| `Addressing.DeliveryIsFiledWithTheBridge` | app/src/session_persisting_sink.rs:187-231 | a delivery is filed under the owner and scope the bridge uses, whichever agent the sink has, if and only if the agent name is non-blank and slash-free |
| `Addressing.OtherChannelsFileByConversation` | app/src/session_persisting_sink.rs:187-231 | on any other channel owner, channel and conversation are those sent to, and only agent and kind come from the subject |
| `Addressing.FiledTogetherSentTogether` | app/src/session_persisting_sink.rs:187-231 | deliveries filed under one scope were sent to the same channel and conversation |
| `Addressing.TuiScopeIs` | app/src/tui_ws.rs:576-598 | the scope the bridge derives through the subject has these five fields |
| `DeliverySink.Sink.PersistDelivery` | app/src/session_persisting_sink.rs:34-101 | one delivery changes the sessions as specified, store failures included |
| `DeliverySink.DeliveryRecords` | app/src/session_persisting_sink.rs:66-73 | a delivery adds one record to its own session if it had none and the store worked, and changes no other count |
| `DeliverySink.DeliveryAppends` | app/src/session_persisting_sink.rs:66-101 | it leaves the message as it was sent, and the note if one is due, at the end of that session, and every other session as it was |
| `DeliverySink.RecordedOnce` | app/src/session_persisting_sink.rs:66-68 | over any sequence of deliveries, one at a time, no session records a message id twice, and none loses or reorders what it holds |
| `DeliverySink.DeliveredIsRecorded` | app/src/session_persisting_sink.rs:69-101 | a delivery that met no store failure is recorded exactly once from then on |
| `MemoryIdentity.OwnerAliases` | app/src/memory_scope.rs:25-38 | the nested loops map every owner to the preferred owner of the last group that lists it |
| `MemoryIdentity.PreferredIsFirstOther` | app/src/memory_scope.rs:80-86 | the preferred owner is the first that is no TUI identity |
| `MemoryIdentity.PreferredIsFirstOfAll` | app/src/memory_scope.rs:80-86 | and the first of all when every one is |
| `MemoryIdentity.CanonicalIsFirstOther` | app/src/memory_scope.rs:57-62 | with disjoint groups every identity of a person is written under that owner |
| `MemoryIdentity.OwnerMap` | app/src/memory_recall_hook.rs:73-78 | the nested loops map every owner to the last group that lists it |
| `MemoryIdentity.MapsAnswer` | app/src/memory_scope.rs:57-62 | looking an owner up in either map is what the two specification functions say |
| `MemoryIdentity.WriteOwnerIsRecalled` | app/src/memory_recall_hook.rs:166-177 | the owner a key writes under is always among those recalled for it, however groups overlap |
| `MemoryIdentity.IdentitiesShareOneOwner` | app/src/memory_scope.rs:57-62 | with disjoint groups all identities of a person share one owner and one recall set |
| `MemoryIdentity.CanonicalIsIdempotent` | app/src/memory_scope.rs:57-62 | with disjoint groups the canonical owner stands for itself |
| `MemoryIdentity.GroupSharesExactlyWhen` | app/src/memory_scope.rs:25-38 | however groups overlap, the identities of a group share one owner if and only if the last groups that list them prefer the same owner |
| `MemoryIdentity.CanonicalSettlesExactlyWhen` | app/src/memory_scope.rs:57-62 | the canonical owner stands for itself, for every owner, if and only if the owner preferred by a group that is the last to list somebody is last listed by a group that prefers it too |
| `MemoryIdentity.OverlapSplitsAPerson` | app/src/memory_scope.rs:25-38 | two overlapping groups for which neither holds |
| `MemoryIdentity.OverlapMaySplitNobody` | app/src/memory_scope.rs:25-38 | two overlapping groups whose identities each share one owner |
| `ArgumentRewrite.OwnerSettlesExactlyWhen` | app/src/skill_scope_wrapper.rs:92-104 | a written owner is read back as itself if and only if there is none, or the owner it is read as (the subject's own in place of a blank one) has it as canonical owner |
| `ArgumentRewrite.SkillsBelongToTheAgent` | app/src/skill_scope_wrapper.rs:48-82 | skills and tool notes are written for nobody in particular, under the caller's own agent if known and else the one named |
| `ArgumentRewrite.MemoriesBelongToThePerson` | app/src/skill_scope_wrapper.rs:83-112 | everything else under the owner named, folded; nobody for null or an agent alone; else the subject's; with the agent named or the subject's |
| `ArgumentRewrite.WrittenScopeIs` | app/src/skill_scope_wrapper.rs:104-112 | the written scope names owner and agent and is open in every other respect |
| `ArgumentRewrite.AgentOfSubjectIs` | app/src/memory_scope.rs:66-72 | a subject's agent is the one it names, else the one its identity is of |
| `ArgumentRewrite.NormalizeSettlesExactlyWhen` | app/src/skill_scope_wrapper.rs:48-112 | for any JSON, subject and groups, rewriting the arguments twice is rewriting once if and only if the class is agent-global or the owner written is so read back |
| `ArgumentRewrite.RewritesSettleExactlyWhen` | app/src/skill_scope_wrapper.rs:48-112 | rewriting twice is rewriting once for all arguments and subjects if and only if the groups fold every owner into one that stands for itself, and none but a blank one into a blank one |
| `ArgumentRewrite.NormalizeIsIdempotent` | app/src/skill_scope_wrapper.rs:48-112 | with disjoint groups of non-blank owners rewriting the arguments twice is rewriting once, for any JSON |
| `ArgumentRewrite.DefaultWriteIsRecalled` | app/src/skill_scope_wrapper.rs:83-112 | personal arguments that leave the owner to the subject (no scope object, neither owner nor agent in it, or an owner that is no usable text) are written under an owner the same subject recalls, and nothing but the scope changes |
| `ArgumentRewrite.BlankOwnerDrifts` | app/src/skill_scope_wrapper.rs:92-104 | JSON arguments that a second rewrite changes: their owner's group prefers a blank one, which is read as missing |
| `Recall.RankingIsRight` | app/src/memory_recall_hook.rs:229-264 | over any searches and any map order: distinct ids, each with its best score, descending, within the limit, none below an omitted one |
| `Recall.MergeHoldsBest` | app/src/memory_recall_hook.rs:241-255 | the merged map holds every found id with its best score |
| `Recall.FirstBestIsKept` | app/src/memory_recall_hook.rs:245-253 | of several best hits of an id the one found first is kept |
| `Recall.PinnedAreNew` | app/src/memory_recall_hook.rs:269-292 | the pinned rows have distinct ids, exactly those found that are not among the hits |
| `RecallMessages.ExtractLastUserText` | app/src/memory_recall_hook.rs:322-347 | the loop over the blocks gathers the text of the last message, if a user wrote it |
| `RecallMessages.QueryIsWhatTheUserSaid` | app/src/memory_recall_hook.rs:322-347 | the query is the last message's text, or its text blocks one to a line, if a user wrote it, and nothing otherwise |
| `RecallMessages.OtherBlocksAreSkipped` | app/src/memory_recall_hook.rs:322-347 | blocks that are no text are passed over |
| `RecallMessages.PrependKeepsTheRest` | app/src/memory_recall_hook.rs:349-370 | wherever a text was found the hint can be put in, and nothing but the content of the last message changes |
| `RecallMessages.HintComesBeforeTheText` | app/src/memory_recall_hook.rs:349-370 | the text then read is the hint, newlines, and exactly the text found before |
| `Recall.EmptyExactlyWhenNothingFound` | app/src/memory_recall_hook.rs:294-301 | hits and pinned rows are both empty exactly when no search found anything |
| `Recall.MemoryRecallHook.BeforeLlm` | app/src/memory_recall_hook.rs:183-316 | the run is marked whatever happens; the request is replaced exactly when the run was not marked, its last message is a user's non-blank text and some search found something; then by that ranking and those pinned rows, as a hint in front of the text |
| `AgentChain.HopInherits` | app/src/agent_message.rs:237-311 | a hop is one deeper and within the cap, and hands on origin and channel context unchanged |
| `AgentChain.HopIsRefusedExactlyWhen` | app/src/agent_message.rs:237-257 | a message is refused for its own sender, then for the depth, then for an unknown peer, and for nothing else |
| `AgentChain.HopNamesItsEnds` | app/src/agent_message.rs:258-262 | the peer runs as itself and is told who sent the message |
| `AgentChain.ContextIs` | app/src/agent_message.rs:270-293 | a subject's own attributes are its context, and a terminal identity stands in only for those missing |
| `AgentChain.ChainIsBoundedAndInherits` | app/src/agent_message.rs:237-311 | a chain is no longer than the cap leaves, and the run at its end has the origin and context of its start |
| `AgentChain.ChainRecallsItsPerson` | app/src/agent_message.rs:169-175 | from a person's session a chain has at most four hops, and every run in it recalls that person's memory |
| `AgentChain.AgentsChainForNobody` | app/src/agent_message.rs:163-175 | a chain an agent starts by itself recalls nobody's memory but its own |
| `Speaker.OrderDoesNotMatter` | app/src/speaker_id.rs:131-157 | with a margin of at least one the chosen speaker depends neither on profile order nor on how the sort arranges equals |
| `Speaker.ChosenExactlyWhen` | app/src/speaker_id.rs:131-157 | a match is chosen exactly when it comes first, reaches the threshold, and is ahead of every other, and of no match at all, by the margin |
| `Speaker.ChosenAmongProfiles` | app/src/speaker_id.rs:131-157 | with a margin of at least one that is a matter of the profiles alone |
| `Speaker.OrderMattersExactlyWhen` | app/src/speaker_id.rs:131-157 | another arrangement of the same matches is chosen differently if and only if the margin is zero, the best match reaches the threshold and a different match ties with it |
| `Usage.UsageRelay.AfterLlm` | app/src/usage_relay.rs:47-64 | a call adds its tokens to its run's entry, for TUI subjects only |
| `Usage.UsageRelay.Take` | app/src/usage_relay.rs:41-45 | draining returns and removes the entry |
| `Usage.UsageIsConserved` | app/src/usage_relay.rs:33-66 | over every interleaving, recorded usage of a run is what was drained plus what remains, up to the counter's wrap-around |
| `Usage.UsageIsExact` | app/src/usage_relay.rs:33-66 | and exactly so when the recorded total fits the counter |
| `Usage.OnlyTuiRunsAreHeld` | app/src/usage_relay.rs:56-58 | only runs with a TUI call ever have an entry |
| `Usage.UsageTotals.RecordUsage` | app/src/tui_client.rs:368-374 | one frame updates the three saturating totals as specified |
| `Usage.FreshAndCachedMakeInput` | app/src/tui_client.rs:368-374 | short of saturation, fresh plus cached totals equal the summed input if and only if no frame reads more from the cache than its input |
| `Usage.TotalsAreCappedSums` | app/src/tui_client.rs:368-374 | each total shown is the sum it stands for, or the largest value it can hold |

## Left out

- Cancelling, turn errors, reconnects, `/compact` and goal continuation (so the `/goal` lines that set or resume a goal) in the queue agreement: the client clears or misjudges its queue there; the ledger and the composer invariants do cover them on their own side.
- The 64-entry bound of the kernel's event channel: the model lets the kernel run further ahead, so its runs include those of the bounded channel.
- Persistence of the conversation, summaries, and what the model answers.
- `Usage.UsageIsConserved`: states equality up to multiples of 2^64, because the counter wraps when overflow checks are off; `UsageIsExact` is the equality without wrap-around.
- `TuiHubState.TuiHub.Send`: a receiver of the class keeps everything sent to it; reading and lag are modelled on positions in `HubLag`, for one participant.
- The wording of the recall hint: a function of the hits and pinned rows.
- Two deliveries saved into one session at the same time: the sink loads and then saves, so deliveries are taken one at a time.
- `Recall.RankingIsRight`: scores are integers, so a score that compares with nothing (NaN) does not occur.
- The library sort is modelled as a stable insertion sort by score in `Recall`, and as any descending arrangement in `Speaker`.
- Scope and creation time of a relation are carried along by the walk unchanged and are not modelled.
- The bodies of mid-turn markers, tool descriptions, prompts and log lines.
- Which sends and notifications the sink is asked to persist, and the text of its notify record.
- Drawing, viewport and keyboard handling, HTTP and WebSocket plumbing, SQLite, tmux, ffmpeg, OAuth calls, Matrix and Telegram.
- Voice confidence, label trimming, token-count formatting: floating point or presentation.
