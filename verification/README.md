# Verification of the Chewing text service

Models of the protocols inside the Chewing input method for Windows, with proofs in Dafny. The input method has two
halves. The *text service* (`tip/`) is loaded into every application; it turns keys into edit sessions on the
application's document and keeps the language mode. The *host* (`crates/chewing_tip_host/`) is a process that owns the
candidate window and is spoken to over a named pipe.

`dafny verify dfyconfig.toml` checks everything.

| file | subject |
|---|---|
| `Utf16.dfy` | UTF-16 text: characters against code units |
| `EditSession.dfy` | one edit session against a document `left ++ composition ++ right` |
| `Preedit.dfy` | splicing the bopomofo into the converted text, and the underline segments |
| `Composition.dfy`, `CompositionRuns.dfy` | the queue of edit sessions: ownership, cancellation, coalescing |
| `DeferredTermination.dfy` | terminations that reach a busy service: which edits requested meanwhile survive |
| `CompositionService.dfy` | the protocol on shared heap cells, and `update_preedit` on top of it |
| `TipMode.dfy`, `TipRuns.dfy` | language mode, Shift key and open/close compartment over runs |
| `ServiceRuns.dfy` | what runs of callbacks do to the composition; deferred terminations and their tail handler |
| `TextService.dfy` | the callbacks as objects: borrows, nested callbacks, their termination |
| `CommandQueue.dfy` | many producers, one draining main loop |
| `Json.dfy`, `JsonReading.dfy` | the text of calls and replies, and that it can be read back |
| `Ipc.dfy` | frames, calls and replies over the pipe |
| `Keybind.dfy`, `KeyCombination.dfy` | text forms of key bindings |
| `CandidateGrid.dfy` | measured box, painted cells and cursor moves of the candidate window |

Each protocol appears as a step function on values, about which the lemmas speak, and, where the program updates state in
place, as a class whose methods are proved to perform exactly these steps.

## What surrounds the program

- Edit sessions run first in, first out, each once, and are then released; the API calls inside a session succeed as
  long as its composition has not been terminated, and `GetRange` fails after that.
- The application terminates only the live composition, and only while the service's current cell holds it.
- A service is started and stopped while no session is queued and no composition is live.
- A range that shifts its start anchor past its end anchor pushes the end anchor along; anchors stop at the end of the
  text.
- The editor delivers contiguous, non-empty intervals from 0, one character a symbol, and a cursor among the symbols.
- While the service is borrowed mutably only terminations arrive, and focus changes while a key is busy. While it is
  borrowed shared around a compartment write, only terminations and the notification of that write arrive. Sessions may
  run at any time. The application edits its document only while no composition is live.
- The compartment sends one notification for each accepted write and refuses writes made inside its own notification.
- The configuration does not change during a run.
- A wake-up message is never lost. Reads from a pipe return any positive number of the bytes that are there.
- The handler of the host is a function of the calls of the session so far.
- Text metrics are not negative.

## What the proofs show about the code

- **Coalescing loses commits.** A new edit overwrites one that is still queued. Nothing but the commit strings of the
  overwritten edits goes missing, and nothing goes missing exactly when all of these are empty
  (`CompositionRuns.OverwritingLosesCommits`, `CoalescingInvisibleIff`).
- **A termination during a key loses what that key commits.** Of everything requested between a deferred termination and
  its tail handler, exactly the sets with an end request somewhere before and one right after them reach the document
  (`DeferredTermination.OnlyEnclosedEditsSurvive`). What `update_preedit` requests is never of that kind, so it is lost,
  its commit included (`CompositionService.PreeditBeforeTailIsLost`).
- **A late tail handler can strand a composition.** If the callback fails, the termination waits; a tail handler that
  then finds a new live composition in the current cell drops it unfinished, and any next edit starts a second one beside
  it (`CompositionRuns.LateTailLeadsToTwo`). Nothing else leads to two live compositions
  (`CompositionRuns.OneLiveIffTimely`), and it cannot happen while sessions run only when no termination is waiting
  (`PromptIsTimely`).
- **An emptied editor can lose its commit, and leave the preedit it gave up.** When the editor becomes empty before the
  first session of a composition has run and no candidates are shown, the service does not count as composing: it requests
  no set, so the commit is dropped, and the queued edit is closed with its text in it (`CompositionService.EmptiedEditor`,
  `CommitIsDropped`, `StalePreeditStaysIff`, `DeletedPreeditStays`).
- **A composition can start in a document that has lost the focus.** This is so exactly when an edit was queued for a
  composition that had not been started and no candidates were shown (`ServiceRuns.FocusLossCloses`).
- **A commit with a supplementary-plane character is cut.** The anchor moves by a count of characters over text counted in
  UTF-16 code units; the rest of the commit stays in the composition and the next edit replaces it
  (`EditSession.CommitSplit`, `CommitSurvivesNextEdit`).
- **Underlines fail to tile when the bopomofo is in the middle.** Inside an interval the last segment ends too early
  (`chewing.rs:1064`); between two intervals the strict comparison at `chewing.rs:1069` leaves the next one unshifted
  (`Preedit.SegmentsTileIff`, and position by position `CoverageInside` and `CoverageBetween`).
- **Turning input off closes the composition only without sync.** With the compartment synced, `OnChange` takes the
  branch that requests nothing (`ServiceRuns.TurningOffCommits`).
- **An open/close change right after activation is swallowed**, because the service starts with the flag that marks own
  writes set, and keeps it until a callback that syncs (`TipRuns.FirstChangeAfterStartIsLost`).
- **A command can be left in the channel of an idle host**, since producers post the wake-up before they push. It happens
  exactly when no drain ends after the push (`CommandQueue.CommandCanBeLeftBehind`, `LeftBehindIffNoDrainEnds`).
- **A two-way call that gets no answer waits forever.** This is so when the handler fails and when the method is unknown
  (`Ipc.WaitsForeverIffNoAnswer`).
- A negative Shift sensitivity is cast to a number just below 2^64, so a release is a tap unless Shift was held for that
  many milliseconds (`TipRuns.NegativeSensitivityTaps`).
- A key binding whose action contains `=` or, without a parameter, `:` does not survive saving (`Keybind.SaveLoadIff`).
- A key that moves the selection on in an empty candidate list moves it out of the list, because the number of items
  minus one wraps around (`CandidateGrid.SelectionStaysInRange`).

## Model

| member | source | states |
|---|---|---|
| EditSession.Context.SetString | tip/src/text_service/edit_session.rs:130-170 | the edit session, anchor by anchor, splits its text into the part fixed left of the composition and the part kept in it, and places underlines and caret, cut off at the end of the text |
| EditSession.Context.MarkSegments | tip/src/text_service/edit_session.rs:150-162 | the loop over the segments gives one mark a segment, in order, with the two display attributes in turns |
| Preedit.MarksAlternate | tip/src/text_service/edit_session.rs:150-162 | the first mark has the first display attribute, neighbours have different ones |
| EditSession.Context.PlaceCaret | tip/src/text_service/edit_session.rs:164-169 | the selection collapses at the cursor, counted from the start of the shifted range |
| EditSession.Context.Finish | tip/src/text_service/edit_session.rs:192-230 | ending a composition leaves its text in the document left of the caret, without marks |
| EditSession.CommitSplit | tip/src/text_service/edit_session.rs:133-149 | after an edit the document reads left, commit, preedit, right; the composition is exactly the preedit, and the text left of it ends with the whole commit, if and only if the commit has no supplementary-plane character |
| EditSession.CommitSurvivesNextEdit | tip/src/text_service/edit_session.rs:133-149 | after two edits in a row the first commit is complete in the document if and only if it has no supplementary-plane character; otherwise its tail is gone |
| Utf16.LengthAgreesIffBasic | tip/src/text_service/edit_session.rs:143-148 | the number of characters equals the number of code units exactly for text without supplementary-plane characters |
| Preedit.Assemble | tip/src/text_service/chewing.rs:1041-1079 | the loop of update_preedit and its fallback compute the buffer and the segments that the lemmas below pin down for every contiguous list of intervals, cursor and bopomofo |
| Preedit.SpliceAtCursor | tip/src/text_service/chewing.rs:1040-1079 | the buffer is the converted text up to the cursor, the bopomofo once, and the rest |
| Preedit.SomeIntervalSplits | tip/src/text_service/chewing.rs:1076-1079 | unless there are no intervals at all one of them takes the bopomofo, so the fallback is for the empty editor |
| Preedit.SegmentsTileIff | tip/src/text_service/chewing.rs:1048-1079 | the segments cover every position of the preedit exactly once and nothing beyond, if and only if the bopomofo is empty or the cursor is at either end of the symbols |
| Preedit.BoundaryOverlap | tip/src/text_service/chewing.rs:1058-1073 | with the cursor between two intervals, the bopomofo and the interval behind it claim the same position |
| Preedit.InteriorGap | tip/src/text_service/chewing.rs:1061-1065 | with the cursor inside an interval, the last position belonging to this interval is in no segment |
| Preedit.WithoutBopomofo | tip/src/text_service/chewing.rs:1067-1074 | without bopomofo the segments are the intervals |
| Preedit.SegmentsInside | tip/src/text_service/chewing.rs:1061-1070 | with the cursor inside an interval the segments are, in this order: the intervals before it, its head, the bopomofo, its tail with the unshifted end, and the shifted intervals after it |
| Preedit.SegmentsBetween | tip/src/text_service/chewing.rs:1058-1073 | with the cursor between two intervals: the intervals before the cursor, the bopomofo, the next interval unshifted, and the others shifted |
| Preedit.SegmentsAtStart | tip/src/text_service/chewing.rs:1055-1079 | with the cursor at the beginning: the bopomofo, then every interval shifted |
| Preedit.SegmentsAtEnd | tip/src/text_service/chewing.rs:1058-1060 | with the cursor at the end: every interval, then the bopomofo |
| Preedit.BopomofoHasSegment | tip/src/text_service/chewing.rs:1056-1063 | wherever the cursor is, the bopomofo has a segment of its own and every position of it is underlined |
| Preedit.CoverageInside | tip/src/text_service/chewing.rs:1061-1065 | with the cursor inside an interval every position is underlined once, except exactly those between the interval's unshifted end or the end of the bopomofo, whichever is later, and its shifted end, which are not underlined |
| Preedit.CoverageBetween | tip/src/text_service/chewing.rs:1058-1073 | with the cursor between two intervals exactly the positions that bopomofo and next interval share are underlined twice, exactly those the next interval should have moved to and neither covers are not, and all others once |
| CompositionService.ShowsPreedit | tip/src/text_service/chewing.rs:1081-1083 | an editor with text or bopomofo requests one set, of the spliced text, and no end |
| CompositionService.PreeditReachesDocument | tip/src/text_service/chewing.rs:1040-1098 | for every state of the editor: once the queue is drained, a composition is live exactly if there is text, bopomofo or a candidate list to show; it then equals the spliced preedit, and the text left of it ends with the whole commit, if and only if the commit has no supplementary-plane character |
| CompositionService.EmptiedEditor | tip/src/text_service/chewing.rs:1084-1096 | when the editor is empty and shows no candidates nothing is live afterwards; the document has gained just the commit if and only if the composition had been started or the pending edit has the same text; otherwise the commit is dropped and the text of the pending edit is there instead |
| CompositionService.EmptiedKeepsAllIff | tip/src/text_service/chewing.rs:1084-1096 | all that was committed, by the pending edit too, is left of the caret and nothing else, if and only if, with a started composition, the pending edit had no commit, and without one, the commit equals the preedit given up |
| CompositionService.StalePreeditStaysIff | tip/src/text_service/chewing.rs:1084-1096 | a preedit given up stays in the document as text if and only if its edit was still queued for a composition that had not been started |
| CompositionService.CommitIsDropped | tip/src/text_service/chewing.rs:1086-1095 | for every text and commit: with candidates shown for an empty editor and then closed by a key that commits before the session has run, the document stays without the commit |
| Utf16.EncodeInjective | tip/src/text_service/edit_session.rs:135-139 | different strings have different code units, so equal document text means equal commits |
| Utf16.SurrogatePair | tip/src/text_service/edit_session.rs:135-139 | a supplementary character is two code units in the surrogate ranges, from which it can be computed back |
| CompositionService.DeletedPreeditStays | tip/src/text_service/chewing.rs:1084-1096 | for every text and preedit, typing and deleting it before the first session runs leaves it in the document |
| CompositionService.PreeditOnDeadIsLost | tip/src/text_service/chewing.rs:1040-1098 | while the current cell holds a terminated composition, no update reaches the document |
| CompositionService.PreeditBeforeTailIsLost | tip/src/text_service/mod.rs:405-424 | whatever update_preedit requests between a termination and the tail handler of the same callback is lost, its commit included |
| CompositionService.UnderlineTilesCompositionIff | tip/src/text_service/edit_session.rs:150-162 | for all text: the underlines in the document tile as many code units as the preedit has characters exactly when the bopomofo is empty or the cursor is at an end, and the whole composition exactly when, moreover, commit and preedit have no supplementary-plane characters |
| CompositionService.PreeditLooks | tip/src/text_service/chewing.rs:1040-1098 | in the drained document the caret stands at the editor's cursor, each position is underlined as often as the segments say, with the two attributes in turns; with only candidates to show nothing is underlined |
| CompositionService.SetRunsLast | tip/src/text_service/chewing.rs:1127-1178 | when a set was the last request, the drained document shows it over everything but the overwritten edit, whether it overwrote one or got its own session |
| CompositionService.ChewingTextService.SetCompositionString | tip/src/text_service/chewing.rs:1127-1178 | over shared cells: an edit overwrites the queued one while its session is alive, and is queued with a new slot otherwise; nothing else changes |
| CompositionService.ChewingTextService.Upgrade | tip/src/text_service/chewing.rs:1146-1146 | the weak reference can be upgraded exactly while a queued session holds the slot |
| CompositionService.ChewingTextService.EndComposition | tip/src/text_service/chewing.rs:1113-1125 | the composition cell goes to the closing session, a fresh cell and an empty reference replace it |
| CompositionService.ChewingTextService.RunSet | tip/src/text_service/edit_session.rs:114-173 | a blank slot or a terminated composition makes the session do nothing; otherwise a composition is started when the cell is empty, and the edit is applied |
| CompositionService.ChewingTextService.RunEnd | tip/src/text_service/edit_session.rs:215-230 | the closing session empties its cell in any case, and ends the composition unless there is none or it was terminated |
| CompositionService.ChewingTextService.RunNext | tip/src/text_service/edit_session.rs:113-230 | the host runs the oldest session and releases it |
| CompositionService.ChewingTextService.OnCompositionTerminatedTail | tip/src/text_service/chewing.rs:914-919 | termination blanks a slot that is still reachable, drops the reference and empties the current cell |
| CompositionService.ChewingTextService.UpdatePreedit | tip/src/text_service/chewing.rs:1040-1098 | update_preedit issues the requests for which the lemmas about text, caret and underlines in the document are stated |
| CompositionService.ChewingTextService.Replay | tip/src/text_service/edit_session.rs:113-230 | any sequence of events of the protocol, such as the trace of a callback or of a whole run, has on the shared cells the effect it has on values |
| Composition.StepKeepsQueueInv | tip/src/text_service/chewing.rs:1113-1178 | every event, terminations handled at once, deferred or failed and late tail handlers included, keeps the ownership invariant of cells, slots and queue |
| Composition.StepKeepsInvIff | tip/src/text_service/chewing.rs:903-921 | that the live composition is the one in the front cell is kept by every event, except exactly by a tail handler with the flag up that finds a live composition in the current cell |
| Composition.StrandedComposition | tip/src/text_service/chewing.rs:919-919 | such a tail handler leaves a live composition that no cell holds |
| Composition.Ownership | tip/src/text_service/chewing.rs:1113-1178 | under the invariant each slot belongs to one session, a cell has at most one session that can still write, an End session is the last of its cell, and the current cell has none |
| CompositionRuns.OwnershipInEveryRun | tip/src/text_service/chewing.rs:1113-1178 | these ownership facts hold in every state reachable from a fresh service, whatever terminations are deferred |
| CompositionRuns.RunsKeepInvIff | tip/src/text_service/mod.rs:93-106 | the whole invariant holds in every state of a run if and only if no tail handler of the run comes too late |
| CompositionRuns.PromptIsTimely | tip/src/text_service/mod.rs:93-106 | no tail handler is too late when sessions run only while no termination waits |
| CompositionRuns.OneLiveComposition | tip/src/text_service/edit_session.rs:116-129 | over runs without a late tail handler at most one composition is live, at most one cell is in use and holds it, and a session starts one only when none is live |
| CompositionRuns.TwoCanBeLive | tip/src/text_service/mod.rs:93-106 | a run with a late tail handler after which two compositions are live |
| CompositionRuns.LateTailLeadsToTwo | tip/src/text_service/mod.rs:93-106 | after any late tail handler, any next edit, once the queue has run, leaves two compositions live |
| CompositionRuns.TailHarmlessIff | tip/src/text_service/mod.rs:93-106 | in all continuations up to the next tail handler at most one composition is live, if and only if this tail handler is not late |
| CompositionRuns.OneLiveIffTimely | tip/src/text_service/mod.rs:93-106 | over every run: at most one composition is live, in each state and all its continuations without a tail handler, if and only if no tail handler of the run is late |
| CompositionRuns.AppliedSlotsAscend | tip/src/text_service/edit_session.rs:113-173 | over every run the slots applied to the document strictly ascend, so no composition string is applied twice |
| CompositionRuns.TerminationDooms | tip/src/text_service/mod.rs:458-487 | a termination leaves the text as it is and no composition live, and none of the queued sessions can write any more, whether it is handled at once, deferred or failed |
| CompositionRuns.TailCancels | tip/src/text_service/chewing.rs:903-921 | a tail handler lowers the flag, empties the current cell and cancels every session queued on it, without touching the document |
| CompositionRuns.DoomedNeverWrites | tip/src/text_service/edit_session.rs:116-132 | whatever follows, new edits on the same cell included, running such a session changes the queue and nothing else |
| CompositionRuns.TerminationIsSafe | tip/src/text_service/chewing.rs:903-921 | for every run before and after a termination, however it is handled, no session queued before it changes anything after it |
| CompositionRuns.DeadOnlyWhileDeferred | tip/src/text_service/mod.rs:470-475 | over every run without failed or late handlings, the current cell holds a terminated composition only while the flag is up |
| DeferredTermination.SetOnDeadIsLost | tip/src/text_service/edit_session.rs:130-133 | a set on a terminated composition is lost, with its commit |
| DeferredTermination.TailLosesPending | tip/src/text_service/chewing.rs:914-919 | in any state in which it is not too late, a tail handler takes the pending edit, if it would have been applied, and nothing else out of what the queue has to do |
| DeferredTermination.OnlyEnclosedEditsSurvive | tip/src/text_service/mod.rs:405-424 | for every list of requests between a deferred termination and its tail handler, the drained document is the one the application left, with the whole text of exactly those edits inserted that have an End before them and one right after them; the invariant holds and the current cell is empty |
| DeferredTermination.AllLostIff | tip/src/text_service/mod.rs:405-424 | nothing of these requests reaches the document if and only if no set is enclosed in that way |
| DeferredTermination.SurvivorsWithoutTail | tip/src/text_service/mod.rs:414-420 | if the sessions run before any tail handler, because the callback failed or the handling did, the last set survives too if an End came before it |
| CompositionRuns.RunIsApply | tip/src/text_service/edit_session.rs:113-230 | in every state of the invariant, running the oldest session has the effect of its request carried out at once |
| CompositionRuns.DrainReachesDrained | tip/src/text_service/edit_session.rs:113-230 | running every queued session ends with an empty queue and the document that the drained form predicts |
| CompositionRuns.DrainedIsImmediateOfSurviving | tip/src/text_service/chewing.rs:1113-1178 | for every interleaving of requests and session runs, the drained queue gives the document of the surviving requests, each carried out at once without any queue |
| CompositionRuns.OverwritingLosesCommits | tip/src/text_service/chewing.rs:1146-1153 | against carrying out all requests at once, composition, text to its right, marks and caret agree, and the text to its left lacks exactly the overwritten commits |
| CompositionRuns.CoalescingInvisibleIff | tip/src/text_service/chewing.rs:1113-1178 | both documents are equal if and only if every overwritten edit had an empty commit |
| TextService.RefCell.BorrowMut | tip/src/text_service/mod.rs:300-300 | a mutable borrow demands that nothing is borrowed; callers prove it, so it never panics |
| TextService.RefCell.Borrow | tip/src/text_service/mod.rs:493-499 | a shared borrow demands that there is no mutable one; callers prove it, so it never panics |
| TextService.RefCell.TryBorrowMut | tip/src/text_service/mod.rs:470-475 | the attempt succeeds exactly when nothing is borrowed |
| TextService.TextService.OnCompositionTerminated | tip/src/text_service/mod.rs:458-487 | with nothing borrowed the current cell is emptied and the pending edit blanked at once, unless a call fails; under any borrow only the flag is raised |
| TextService.TextService.OnSetFocus | tip/src/text_service/mod.rs:286-318 | a focus change is ignored while a key is busy, and needs a free service otherwise; losing the focus of a context while composing requests the end of the composition |
| TextService.TextService.ReceiveArrivals | tip/src/text_service/mod.rs:470-475 | any sequence of requests, sessions, edits, terminations and focus changes allowed under a borrow leaves borrow and mode as they were and is a run of the composition protocol in which terminations are deferred |
| TextService.TextService.SetValue | tip/src/text_service/chewing.rs:1668-1679 | a write notifies the service, whose own write is refused; the recursion ends and borrows are balanced |
| TextService.TextService.SyncKeyboardOpenClose | tip/src/text_service/chewing.rs:1655-1682 | an unforced sync writes only for a pending flag with sync on, and the nested notification consumes the flag; a forced one comes from a notification and changes no mode |
| TextService.TextService.OnChange | tip/src/text_service/mod.rs:490-531 | under a shared borrow or none, the notification takes the pending flag or flips the disabled bit, never panics, leaves the borrow as it was, and in the mutable branch requests commit and end when it turns input off |
| TextService.TextService.TailHandler | tip/src/text_service/mod.rs:93-106 | the tail handler always obtains the borrow; with the flag up it empties the current cell, blanks the pending edit and lowers the flag, and otherwise does nothing |
| TextService.TextService.OnTestKeyDown | tip/src/text_service/mod.rs:359-377 | with every nesting of allowed callbacks, the borrow is free at the end, and mode and composition are those of the transition functions |
| TextService.TextService.OnKeyDown | tip/src/text_service/mod.rs:405-424 | as above; the key stays busy |
| TextService.TextService.OnTestKeyUp | tip/src/text_service/mod.rs:379-403 | as above, with the compartment write and its nested notification |
| TextService.TextService.OnKeyUp | tip/src/text_service/mod.rs:426-451 | as above; the key is no longer busy, so that focus changes count again |
| TextService.TextService.OnCommand | tip/src/text_service/mod.rs:145-155 | as above, for a command of the language bar; no tail handler runs |
| TextService.TextService.OnSetThreadFocus | tip/src/text_service/mod.rs:330-346 | as above; no tail handler runs |
| TextService.TextService.OpenCloseChanges | tip/src/text_service/mod.rs:490-531 | a change of the compartment by somebody else, with the refused write that answers it |
| TextService.TextService.HostActs | tip/src/text_service/mod.rs:476-483 | between callbacks: sessions, edits by the application, and terminations handled at once or failing |
| TextService.TextService.Activate | tip/src/text_service/mod.rs:180-187 | a fresh service with an empty cell replaces the old one and opens the keyboard; the busy and termination flags stay |
| TextService.TextService.Deactivate | tip/src/text_service/mod.rs:240-240 | the service is taken out; flags, compartment and document stay |
| TextService.ChewingTextService.SyncLangMode | tip/src/text_service/chewing.rs:1340-1363 | sets the pending flag; in CapsLock mode an enabled service becomes Chinese or English by the four cases of lock setting and CapsLock state; otherwise the mode stays |
| TextService.ChewingTextService.ToggleLangMode | tip/src/text_service/chewing.rs:1380-1388 | input stays enabled or disabled, the language becomes the other one or, enabled in CapsLock mode, the one that CapsLock dictates, and the next compartment change counts as an own one |
| TextService.ChewingTextService.OnCompartmentChange | tip/src/text_service/chewing.rs:923-946 | an own change only clears the flag; a focused change by others flips the disabled bit and leaves the flag clear; see the laws of the pending flag below |
| TextService.ChewingTextService.OnTestKeyDown | tip/src/text_service/chewing.rs:426-470 | a key seen with Shift held consumes the press; Shift goes down only from Up; errors before the key or before the reply leave the rest undone |
| TextService.ChewingTextService.Release | tip/src/text_service/chewing.rs:102-109 | Shift is up afterwards, and a duration comes back only from Down |
| TextService.ChewingTextService.OnKeyUp | tip/src/text_service/chewing.rs:800-858 | a tap toggles outside of CapsLock mode; CapsLock syncs in CapsLock mode; when a release is a tap is stated by the laws of Shift below |
| ServiceRuns.TailIsLast | tip/src/text_service/mod.rs:375-375 | a callback contains a tail handler exactly if it is a key callback that succeeds on an initialised service, and then as the last thing it does |
| ServiceRuns.DeferralStep | tip/src/text_service/mod.rs:93-106 | with the flag up, any other callback leaves it up; a successful key callback lowers it, empties the current cell and cancels every session queued on it |
| ServiceRuns.DeferralHandledByFirstSuccess | tip/src/text_service/mod.rs:93-106 | over every run the flag survives until the first successful key callback, whose tail handler does that |
| ServiceRuns.DeferralsAreConserved | tip/src/text_service/mod.rs:470-475 | over every run of callbacks, tail handlers that found the flag up plus a flag still up equal the number of times it was raised |
| ServiceRuns.BusyKeyDown | tip/src/text_service/mod.rs:405-424 | a key callback in which a termination and then any requests occur leaves, once drained, the application's document with exactly the enclosed edits |
| ServiceRuns.TraceRuns | tip/src/text_service/mod.rs:353-532 | if what happens inside a callback is possible when it happens, the callback as a whole, with its own requests and its tail handler, is a run of the composition protocol |
| ServiceRuns.RunOfCallbacks | tip/src/text_service/mod.rs:353-532 | between start and stop a run of such callbacks is a run of the composition protocol, so the laws of its runs apply |
| ServiceRuns.TerminationIsSafeForCallbacks | tip/src/text_service/mod.rs:458-487 | wherever in a run of callbacks the application terminates the composition, inside a callback or between two, no session queued then changes anything in the rest of the run |
| ServiceRuns.FocusLossCloses | tip/src/text_service/chewing.rs:349-360 | losing the focus keeps the whole text; a composition that is closed leaves no underline; a composition is live in that document afterwards if and only if the service was not composing and an edit was still queued |
| ServiceRuns.BusyKeyIgnoresFocus | tip/src/text_service/mod.rs:295-299 | while a key is busy a focus change does nothing |
| ServiceRuns.FocusLossAfterKeyUp | tip/src/text_service/mod.rs:295-318 | over every run whose latest real key callback was a key-up, losing the focus takes effect and requests the end of the composition exactly if there is a context and the service is composing |
| ServiceRuns.FocusLossRightAfterKeyUp | tip/src/text_service/mod.rs:428-428 | the same right after any key-up |
| ServiceRuns.TurningOffCommits | tip/src/text_service/chewing.rs:937-967 | a compartment change commits and closes the composition exactly if it turns input off while composing and the compartment is not synced; any other change leaves the composition as it was |
| ServiceRuns.StartIsFresh | tip/src/text_service/mod.rs:180-187 | a start keeps document and termination flag and begins with an empty cell, an empty queue and nothing pending |
| ServiceRuns.EventsInOrder | tip/src/text_service/mod.rs:470-475 | what a callback does to the composition is what its surroundings contribute, in order |
| TipRuns.ModeStep | tip/src/text_service/mod.rs:490-515 | the disabled bit flips exactly at accepted external changes, never at own writes with their nested notification; without CapsLock mode the language flips exactly at toggles |
| TipRuns.LanguageStep | tip/src/text_service/chewing.rs:1340-1388 | in any configuration: CapsLock mode dictates the language to an enabled service at each sync; otherwise the language flips exactly at toggles, also while input is disabled |
| TipRuns.PendingStep | tip/src/text_service/chewing.rs:923-946 | the pending flag is raised exactly by the service's own changes of mode, and is clear after every compartment change and every callback that gets to its sync |
| TipRuns.PendingIffUnconsumed | tip/src/text_service/chewing.rs:1655-1681 | over every run that starts with the flag clear, it is pending exactly if some own change has not been dealt with since |
| TipRuns.NextChangeAcceptedIff | tip/src/text_service/chewing.rs:923-935 | after an accepted change, and any events in between, the next one is accepted exactly if the service has the focus and no own change is outstanding |
| TipRuns.ClosingAndReopening | tip/src/text_service/chewing.rs:938-946 | of two external changes in a row the second is accepted if the first was, and without CapsLock mode they restore the mode |
| TipRuns.CompartmentStep | tip/src/text_service/chewing.rs:1672-1678 | the service writes the compartment only at the end of a callback with the flag pending and sync on, and then 1 exactly for enabled Chinese and 0 otherwise |
| TipRuns.FocusStep | tip/src/text_service/mod.rs:297-317 | the focus changes exactly at focus changes outside of a key stroke |
| TipRuns.BusyIffLastKeyDown | tip/src/text_service/mod.rs:407-428 | over every run a key is busy exactly if the latest real key callback was a key-down, or, without any, if it was before |
| TipRuns.StartedService | tip/src/text_service/chewing.rs:1439-1443 | a start gives an enabled, focused service in the default or dictated language, with the flag pending, Shift up and the keyboard open |
| TipRuns.OwnWriteConsumesFlag | tip/src/text_service/chewing.rs:1655-1681 | after a callback that syncs, the pending flag is clear, and with sync on the compartment shows the mode |
| TipRuns.FirstChangeAfterStartIsLost | tip/src/text_service/chewing.rs:1439-1443 | a service that was just started takes an external change, if it comes next, for its own |
| TipRuns.DisabledIffOddAccepted | tip/src/text_service/chewing.rs:860-867 | over every run, in any configuration, the disabled bit tells the parity of accepted external changes |
| TipRuns.LanguageIsParityOfToggles | tip/src/text_service/chewing.rs:1380-1388 | over every run without CapsLock mode the language is the initial one, flipped once a toggle |
| TipRuns.ReopeningRestoresMode | tip/src/text_service/chewing.rs:860-867 | an even number of accepted changes and of toggles restores the mode |
| TipRuns.CapsLockDictatesLanguage | tip/src/text_service/chewing.rs:1343-1357 | over every run in CapsLock mode an enabled service has the language that the CapsLock state of the latest sync dictates |
| TipRuns.ShiftStep | tip/src/text_service/chewing.rs:431-470 | which events press, consume and release Shift, and that nothing else changes its state; only a release from Down is a tap |
| TipRuns.TapGoesBackToPress | tip/src/text_service/chewing.rs:789-839 | each tap of any run goes back to one transition from Up to Down within the sensitivity, with no press, consumption or release in between |
| TipRuns.OneTapPerPress | tip/src/text_service/chewing.rs:94-110 | over every run there are at most as many taps as transitions from Up to Down, whatever test and real key events say |
| TipRuns.ReleaseTogglesIff | tip/src/text_service/chewing.rs:811-829 | for a setting that is not negative, a real release from Down flips the language if and only if Shift was held for less than the setting in milliseconds |
| TipRuns.PressAndReleaseIsTapIff | tip/src/text_service/chewing.rs:789-839 | over every run, a press left untouched until its release is a tap exactly if the release is in time, and toggles exactly if, moreover, CapsLock mode is off |
| TipRuns.NegativeSensitivityTaps | tip/src/text_service/chewing.rs:811-816 | for a negative setting a real release from Down flips the language if and only if Shift was held for less than 2^64 minus its amount |
| CommandQueue.MainLoop.Send | crates/chewing_tip_host/src/ui/event_loop.rs:151-159 | with anything else going on between post and push, the whole is a run of the queue; a command that was sent is the latest one pushed and is late exactly if the drain of its own wake-up is over; it is not sent only if the process has exited or the channel is full |
| CommandQueue.MainLoop.CommandLoop | crates/chewing_tip_host/src/ui/event_loop.rs:163-174 | with producers running between any two commands, the drain is a run of the queue and ends with everything pushed so far processed in order, unless Stop ended the process |
| CommandQueue.CommandsAreConserved | crates/chewing_tip_host/src/ui/event_loop.rs:90-174 | over every run: pushed is processed followed by queued, at most 130 are queued, each producer's commands keep their order with the one in flight last, and nothing is processed after Stop |
| CommandQueue.PushedOnce | crates/chewing_tip_host/src/ui/event_loop.rs:163-173 | no command is processed twice or queued again |
| CommandQueue.FinishedDrainProcessedAll | crates/chewing_tip_host/src/ui/event_loop.rs:163-173 | a drain that ends has processed every command pushed before its end |
| CommandQueue.LeftBehindIffNoDrainEnds | crates/chewing_tip_host/src/ui/event_loop.rs:106-118 | with no drain in progress and no wake-up outstanding, a command is still queued if and only if no drain has ended since its push |
| CommandQueue.LeftBehindOnlyIfLate | crates/chewing_tip_host/src/ui/event_loop.rs:151-159 | in such a state a command that is still queued was pushed after the drain that took its own wake-up had ended |
| CommandQueue.CommandCanBeLeftBehind | crates/chewing_tip_host/src/ui/event_loop.rs:151-159 | for every command a run that leaves it in the channel of an idle host |
| Json.TextNoNul | crates/chewing_tip_core/src/ipc/varlink.rs:24-25 | the JSON text of any value, whole and decimal numbers and any characters in strings included, has no byte 0 |
| Json.EnvelopesHaveNoNul | crates/chewing_tip_core/src/ipc/varlink.rs:5-29 | calls and replies can therefore be framed by a byte 0 |
| JsonReading.ValueReadBack | crates/chewing_tip_core/src/ipc/varlink.rs:5-19 | no two JSON values have the same text, whatever follows them |
| JsonReading.CallReadBack | crates/chewing_tip_core/src/ipc/varlink.rs:5-12 | two calls have the same text if and only if method, parameters and all flags agree |
| JsonReading.ReplyReadBack | crates/chewing_tip_core/src/ipc/varlink.rs:14-19 | two replies have the same text if and only if parameters, flag and error agree |
| JsonReading.OnewayIffFlag | crates/chewing_tip_core/src/ipc/varlink.rs:5-12 | the text of a call determines its one-way flag, so that reader and writer agree on it |
| Ipc.JsonIsSound | crates/chewing_tip_host/src/ipc.rs:67-110 | a host whose answers are reply envelopes or `{}` never puts a byte 0 inside a frame |
| Ipc.FirstFrame | crates/chewing_tip_host/src/ipc.rs:58-60 | a reader that has a byte 0 in its buffer has exactly the first frame before it, however the bytes were split |
| Ipc.ReadUntilNul | crates/chewing_tip_core/src/ipc/client.rs:54-66 | reading pieces of any size keeps all bytes in order and stops with a byte 0 in the buffer or an empty pipe |
| Ipc.NextKeepsInv | crates/chewing_tip_host/src/ipc.rs:51-117 | issuing, reading, handling and returning keep requests in order and replies matched |
| Ipc.RepliesMatchCalls | crates/chewing_tip_core/src/ipc/client.rs:37-69 | over every run of calls and answers in JSON each finished call has the reply made for it, and none exactly if its own text says one-way; the reply pipe is empty when no call waits, and no byte was dropped with the reader of a call |
| Ipc.WaitsForeverIffNoAnswer | crates/chewing_tip_host/src/ipc.rs:43-46 | when everything has come to rest, the client still waits if and only if its last call was two-way and the handler made no answer |
| Ipc.Connection.Send | crates/chewing_tip_core/src/ipc/client.rs:37-69 | against a host that works in any schedule before and between the client's reads: a one-way call returns at once; a two-way call returns the handler's answer to this call after all earlier ones, and waits only without an answer |
| Ipc.Connection.IpcLoopOnce | crates/chewing_tip_host/src/ipc.rs:51-117 | one turn handles exactly the next call in order, whatever was buffered |
| Keybind.RoundTripIff | crates/chewing_tip_core/src/config.rs:476-504 | parsing the printed form returns the value if and only if key and action are trimmed, '=' is in neither action nor parameter, and ':' is not in the parameter or, without parameter, not in the action |
| Keybind.PrintedParses | crates/chewing_tip_core/src/config.rs:476-504 | every printed value parses to some value |
| Keybind.ParsesIff | crates/chewing_tip_core/src/config.rs:479-493 | a text parses if and only if it has a '='; key, action and parameter are the parts before the last '=' and around the last ':' behind it |
| Keybind.TrimmedRoundTripIff | crates/chewing_tip_core/src/config.rs:496-504 | any value prints like its trimmed form and comes back as that, if and only if the trimmed form is faithful |
| Keybind.TrimCuts | crates/chewing_tip_core/src/config.rs:498-498 | trimming cuts off white space at both ends and nothing else |
| Keybind.WhiteSpaceCharacters | crates/chewing_tip_core/src/config.rs:498-498 | white space is the 25 characters of the Unicode property |
| Keybind.LoadSkips | crates/chewing_tip_core/src/config.rs:308-313 | of any lines exactly those with a '=' are loaded, in order |
| Keybind.SaveLoadIff | crates/chewing_tip_core/src/config.rs:308-313 | saving and loading a list keeps its length, and keeps the list if and only if every entry round-trips |
| KeyCombination.KeyFromStr | tip/src/keybind.rs:42-73 | the loop from the right succeeds if and only if every part is recognised, and yields exactly the named modifiers and the leftmost key |
| KeyCombination.LeftmostKeyIsFirst | tip/src/keybind.rs:43-68 | the key that the loop ends with has no key part before it |
| KeyCombination.OrderOfPartsIsIrrelevant | tip/src/keybind.rs:42-73 | texts with the same parts in any order mean the same when at most one part is a key |
| KeyCombination.TokensJoin | tip/src/keybind.rs:43-43 | the tokens have no '+', and joined by '+' they are the text |
| KeyCombination.TokensUnique | tip/src/keybind.rs:43-43 | no other tokens without '+' are |
| KeyCombination.ModifierWords | tip/src/keybind.rs:46-62 | exactly ten words name the four modifiers |
| KeyCombination.LowerIgnoresCase | tip/src/keybind.rs:46-46 | capital and small letters make no difference |
| KeyCombination.KeyWords | tip/src/keybind.rs:75-103 | which trimmed words name which key, and that any single character names itself |
| CandidateGrid.LargestMetrics | crates/chewing_tip_host/src/ui_elements/candidate_list.rs:206-230 | the running maxima are the least lengths that hold every paired key and text |
| CandidateGrid.CalculateClientRect | crates/chewing_tip_host/src/ui_elements/candidate_list.rs:205-252 | the box has room for the measured rows and columns with spacing and margins |
| CandidateGrid.MeasuredRows | crates/chewing_tip_host/src/ui_elements/candidate_list.rs:248-248 | the rows are the least number, at least one, that holds all items |
| CandidateGrid.OnPaint | crates/chewing_tip_host/src/ui_elements/candidate_list.rs:383-438 | the placement loop puts item i into row i / n and column i % n, with n the row width or one |
| CandidateGrid.CellsInsideMargins | crates/chewing_tip_host/src/ui_elements/candidate_list.rs:244-252 | every painted cell lies inside the margins of the measured box, for any item count and row width |
| CandidateGrid.BoxIsTight | crates/chewing_tip_host/src/ui_elements/candidate_list.rs:244-252 | the last column and the last item reach the margins of the box, so it is no larger than the cells need |
| CandidateGrid.CellsDisjoint | crates/chewing_tip_host/src/ui_elements/candidate_list.rs:383-438 | no two painted cells overlap |
| CandidateGrid.CandidateList.FilterKeyEvent | tip/src/text_service/ui_elements/candidate_list.rs:99-161 | for every list, the empty one included, the new selection is that of the move function; a selection in range stays in range, and the key counts as handled exactly if the selection changed |
| CandidateGrid.SelectionStaysInRange | tip/src/text_service/ui_elements/candidate_list.rs:104-145 | no key moves a selection out of a list with items; in an empty list the first place is kept if and only if the key does not move on |
| CandidateGrid.VerticalMove | tip/src/text_service/ui_elements/candidate_list.rs:120-132 | a windowed UP or DOWN that changes the selection moves the painted cell by exactly one row in its column, and the other key undoes it |
| CandidateGrid.VerticalMovesIff | tip/src/text_service/ui_elements/candidate_list.rs:123-132 | UP moves exactly below the first row, DOWN exactly if there is an item one row below in the same column |
| CandidateGrid.SideMoves | tip/src/text_service/ui_elements/candidate_list.rs:104-145 | LEFT and RIGHT, and all four keys without a window, move by exactly one item if there is one, in a window only for rows of more than one item; other keys never move |

## Left out

- The conversion editor, its dictionaries and engines, and simplified-Chinese output: intervals, cursor, bopomofo and
  commit are inputs.
- The rest of `on_test_keydown` and `on_keydown`: the choice of editor commands, and `insert_text`, which depends on
  timing. What a handler requests of the composition is any list of sets and ends.
- TextService.TextService.TailHandler: keeps the composition half of the service as a value, not as the heap cells of
  `CompositionService.ChewingTextService`; `Replay` of the latter performs the events of any callback with the same result.
- What a document looks like with two live compositions: after a late tail handler only the queue, the cells and the
  number of live compositions are described.
- Failing calls on a live composition inside edit sessions, and an activation that fails.
- A handler error after the compartment flags are set is modelled by its effect on flags and mode, not by its message.
- Changes of other compartments, which do nothing to the modelled state.
- Reloading the configuration during a run.
- Modal popup menus and the callbacks inside them.
- The JSON parser: that texts can be told apart is proved, and the answer to a call is any function of its bytes whose
  results are JSON replies. The text `{}` that answers two-way show, hide, stop and update calls is matched to its call like any other reply; that it has no
  `parameters` member is not part of this model.
- The end of the stream when client or host exits, and attestation and security of the pipe.
- A failing `PostThreadMessageW`, and window messages other than the wake-up.
- `Keybinding::matches`, which compares a fixed list of modifiers.
- Key names beyond the letters A to Z are lower-cased as they are; no modifier name has other letters.
- Machine words of candidate positions have 64 bits; only the wrap-around of an empty list is modelled.
- Rounding of lengths: the grid is computed in real numbers. The box of the page number, colours and drawing.
- Registry, files, process launch, update check, menus, language-bar buttons, COM and graphics objects.
