# Shiv: verified models

These files model five parts of the interception proxy and prove what they are for. Everything is stated in
Dafny and checked by its verifier: `dafny verify dfyconfig.toml`.

1. **The intercept gate and its consumer** (`InterceptProtocol`, `InterceptRuns`, `InterceptChecks`,
   `InterceptGate`). Any number of `Hold` calls, the semaphore, the queue, the replaceable bypass channel,
   `watchQueue` and the UI callbacks as one step system; a `select` is a free choice among its ready branches. The
   gate's own fields, the pendings and the UI's displayed request are classes updated in place.
2. **The text editor** (`SoftWrap`, `EditorText`, `EditorSpec`, `EditorRuns`, `EditorLimits`, `EditorLines`,
   `EditorKeys`, `TextViewEntry`). `EditorSpec` says what each event means on the flat text: an edit is one splice,
   a move is a place. `TextViewEntry` is the widget, fields and loops as in the source, each method shown to do
   just that. `EditorKeys` says what each key and the mouse do in terms of the text alone, `EditorLimits` where the
   bounds end, `ChunkColours` what the tokens of its visual lines are.
3. **Preparing raw requests** (`Words`, `HostPort`, `RawRequest`, `RawFraming`, `RawEndings`, `RawIdempotent`,
   `RequestPatch`, `RequestChanges`, `RequestUntouched`). The framing statement is the one sections 6.2 and 6.3 of
   RFC 9112 need.
4. **Syntax colours, wrapping and the background parser** (`Tokeniser`, `TokenKinds`, `TokenWrap`, `ParseText`,
   `TextView`, `TextViewRest`).
5. **Indexes and caches over the store** (`ScopeCache`, `NodeId`, `UrlPath`, `Sorting`, `SiteMap`, `SiteMapTree`,
   `HistoryQuery`, `HistoryFilters`, `HistoryPaging`).

`Strings` has the string operations all of them lean on: first occurrence, split, join and replace; `Lists` two list
helpers, `Wrappers` an option type.

Where the code and what is said about it differ, the code is modelled, the difference is a lemma with an input, and
another says exactly when the code does what is said:

- typed line breaks, drags after an edit and focus lost in a drag (`EditorLimits`): `EditorSpec.StepInBoundsIff`,
  `EditorLimits.RunInBoundsIff`, `EditorSpec.FocusLostKeepsIff`, `EditorLimits.TypedOverInBoundsIff`;
- a bypass channel replaced while open (`InterceptRuns.FirstToggleOnCanOrphan`): `InterceptRuns.BypassReleasesIff`;
- bracketed hosts with two default ports (`RawIdempotent.NestedExample`): `RawIdempotent.PrepareIdempotentIff`;
- headers with an empty line inside (`RawRequest.BodyMovesExample`): `RawRequest.NormaliseKeepsBodyIff`;
- an empty text set during a parse (`TextView.EmptyTextIsNotShown`): `TextView.EmptyTextShownIff`;
- strings continued on the next visual line of the editor (`ChunkColours.ContinuationExample`):
  `ChunkColours.ChunkColouredIff`;
- start lines with more than single blanks (`Tokeniser.LostBlankExample`): `Tokeniser.StartLosslessIff`,
  `ParseText.ShownAsIsIff`;
- header names that come twice (`RequestUntouched.RepeatedNameExample`): `RequestUntouched.UntouchedIff`,
  `RequestUntouched.AnyOrderIff`;
- site-map hosts with brackets or a bar (`SiteMapTree.SameIdExample`): `SiteMapTree.SameIdIff`,
  `SiteMapTree.IdRoundTripIff`, `SiteMapTree.AllReachedIff`;
- a failed scope query (`ScopeCache.FailedQueryIsInScope`).

What comes from outside is a parameter: character counts per line and visible rows, the row and column a point
falls on, which runes are word characters, whether a host is in scope when Hold asks, the order a map is gone
through, the rows a query gives, the ids a database assigns, rows that arrive while an export runs.

## Model

| member | source | states |
|---|---|---|
| `InterceptProtocol.StepKeeps` | internal/store/intercept.go:134-202 | Every step of any Hold call, of watchQueue and of the UI goroutine keeps the whole invariant: tokens, channels, the trail of pendings, replies and outcomes |
| `InterceptProtocol.HoldStepKeeps` | internal/store/intercept.go:134-202 | Every step of a Hold call keeps it, whichever select branch is taken |
| `InterceptProtocol.ConsumerKeeps` | internal/ui/intercept.go:34-182 | Every step of watchQueue and of the UI callbacks keeps it |
| `InterceptRuns.RunKeeps` | internal/store/intercept.go:134-202 | The invariant holds over whole runs, under every interleaving |
| `InterceptRuns.NoPendingLost` | internal/ui/intercept.go:115-131 | A pending whose Hold waits for a decision is in the queue, with watchQueue, dispatched, in hand of the UI, or has its reply buffered; and it is not cancelled |
| `InterceptRuns.ShowOverwritesOnlyCancelled` | internal/ui/intercept.go:153-160 | When showRequest replaces a request on display, that one was cancelled and its Hold waits no more |
| `InterceptRuns.TokensAreHolders` | internal/store/intercept.go:159-202 | The tokens in the semaphore are as many as the Hold calls between acquire and release, and at most one |
| `InterceptRuns.OneLiveInQueue` | internal/store/intercept.go:181-189 | Of two queued pendings the older is cancelled: at most one is live |
| `InterceptRuns.ReplyNeverBlocks` | internal/ui/intercept.go:162-182 | A pending gets at most one reply, and sending it never blocks |
| `InterceptRuns.TokenBalance` | internal/store/intercept.go:159-202 | Over any run a Hold call acquires at most once, and held plus acquired equals held plus released |
| `InterceptRuns.EveryExitReleasesOnce` | internal/store/intercept.go:159-202 | A finished Hold call gave back exactly the tokens it took, on every exit |
| `InterceptRuns.ShownReturnsOriginal` | internal/ui/intercept.go:35-73 | After toggling off or Forward All, the Hold of the request on display returns its original request, whichever select branch wins |
| `InterceptRuns.ReturnsOwnOrAnswer` | internal/store/intercept.go:191-202 | A Hold call returns its own request or the decision sent to it; a decision sent is honoured unless its bypass channel was closed |
| `InterceptChecks.NeverOnHoldsNothing` | internal/store/intercept.go:134-137 | Over every run in which intercept is never switched on nothing is queued, shown or answered, no call waits, and every call that is done returned its own request |
| `InterceptChecks.OffHoldsNothing` | internal/store/intercept.go:134-137 | The same from any state that holds nothing |
| `InterceptChecks.OffReturnsAtOnce` | internal/store/intercept.go:135-137 | A call whose first step finds the gate off is done with its own request after that step, and nothing else changes |
| `InterceptChecks.OutOfScopeReturnsAtOnce` | internal/store/intercept.go:139-150 | So is a call whose host is out of scope |
| `InterceptChecks.OffPassesThrough` | internal/store/intercept.go:134-170 | While the gate stays off, a call not yet past the second look never gets past it, and returns its own request |
| `InterceptChecks.RecheckTurnsAway` | internal/store/intercept.go:166-179 | A call that holds the token and finds the gate off, or its bypass closed, leaves with its own request and is not queued |
| `InterceptChecks.TurnedAwayStays` | internal/store/intercept.go:166-179 | Once turned away, a call is in no queue, on no display and unanswered in every further run |
| `InterceptChecks.OnIsQueued` | internal/store/intercept.go:134-190 | With the gate on, its bypass open, the token free and room in the queue, a call in scope is queued behind the others within seven steps and waits |
| `InterceptChecks.CancelledIsNotDispatched` | internal/ui/intercept.go:116-123 | A pending that is cancelled when watchQueue looks is gone; any other is handed on |
| `InterceptChecks.CancelledIsNotShown` | internal/ui/intercept.go:124-131 | The same for the look of the callback |
| `InterceptRuns.NoOrphansUnlessReplaced` | internal/store/intercept.go:99-117 | Every unfinished call that captured a channel watches a closed or the current one, and one step breaks this exactly when it replaces an open channel that some call captured |
| `InterceptRuns.NoOrphansRun` | internal/store/intercept.go:99-117 | The same over whole runs without such a step |
| `InterceptRuns.NoOrphansFromStart` | internal/store/intercept.go:99-117 | From a fresh gate, without such a step, no call ever watches an abandoned open channel |
| `InterceptRuns.BypassReachesAll` | internal/store/intercept.go:207-217 | After ForwardAll or toggling off, the channel of every call that had captured one is closed |
| `InterceptRuns.ReleasedFinishes` | internal/store/intercept.go:159-202 | A call whose channel is closed takes at most seven more steps of its own, and can always take the next |
| `InterceptRuns.NeverBlocked` | internal/store/intercept.go:159-202 | Such a call is never blocked |
| `InterceptRuns.BypassReleasesIff` | internal/store/intercept.go:207-217 | Bypass releases a call that has captured its channel if and only if that channel is closed or current. From any reachable state such a call finishes within seven own steps, is never blocked, and returns its own request unless it was answered; the channel of any other call stays open over every further run |
| `InterceptRuns.AbandonedRun` | internal/store/intercept.go:99-117 | A channel replaced while open is closed by no later run |
| `InterceptRuns.OrphanNeedsReply` | internal/store/intercept.go:191-202 | A call waiting on such a channel ends only with the decision sent to it |
| `InterceptRuns.FirstToggleOnCanOrphan` | internal/store/intercept.go:111-116 | A concrete run in which SetEnabled(true) replaces an open channel: the call that captured it waits on after Forward All and can take no step, so it is one that only a reply can end |
| `InterceptGate.PendingRequest.Cancel` | internal/store/intercept.go:32-39 | Cancelling closes the channel, any number of times, and never closes a closed one |
| `InterceptGate.PendingRequest.IsDone` | internal/store/intercept.go:42-49 | IsDone tells whether it was cancelled |
| `InterceptGate.Gate.WriteFlag` | internal/store/intercept.go:99-103 | The first critical section of SetEnabled writes the flag and nothing else |
| `InterceptGate.Gate.SwitchBypass` | internal/store/intercept.go:104-117 | The second one does to the fields what the protocol step does; bypassClosed holds exactly when the current channel is closed, which is never closed twice |
| `InterceptGate.Gate.SetEnabled` | internal/store/intercept.go:99-117 | The two critical sections one after the other |
| `InterceptGate.Gate.ForwardAll` | internal/store/intercept.go:207-217 | The same for ForwardAll |
| `InterceptGate.PendingRequest.Send` | internal/store/intercept.go:22-29 | A reply goes into the empty buffer |
| `InterceptGate.InterceptTab.WatchQueue` | internal/ui/intercept.go:115-123 | The pendings handed to the UI are exactly those not cancelled, in order |
| `InterceptGate.InterceptTab.Callback` | internal/ui/intercept.go:124-129 | A pending cancelled meanwhile is not shown |
| `InterceptGate.InterceptTab.ReleaseShown` | internal/ui/intercept.go:41-46 | What is on display is answered with its original request, once |
| `InterceptGate.InterceptTab.Decide` | internal/ui/intercept.go:162-182 | The edited request, the original one when it does not parse, or a drop |
| `SoftWrap.BuildVisualLines` | internal/ui/widgets/textviewentry.go:193-252 | The loops produce the wrap of the lines, none longer than the width or ten, and beside it the tokens of each chunk |
| `SoftWrap.WrapPartition` | internal/ui/widgets/textviewentry.go:193-252 | The wrap is a partition: contiguous chunks from the first line to the last, at most the width long, empty only for empty lines |
| `SoftWrap.WrapLosesNothing` | internal/ui/widgets/textviewentry.go:193-252 | The chunks of each line concatenate to it |
| `ChunkColours.ChunkSpeltIff` | internal/ui/widgets/textviewentry.go:193-252 | The tokens of a chunk spell it if and only if it is not the start of a start line that is taken apart at more than single blanks |
| `TokenKinds.ChunksAreShown` | internal/ui/widgets/textviewentry.go:193-252 | The same for the chunks of the editor, where the header ends with the first empty line |
| `ChunkColours.ChunkColouredIff` | internal/ui/widgets/textviewentry.go:191-252 | The comment says tokenised once per line, the code tokenises every chunk: a chunk of a JSON line has the string colours of its line if and only if it starts outside a string or is blind to the difference |
| `ChunkColours.ContinuationExample` | internal/ui/widgets/textviewentry.go:225-252 | A string longer than the line loses its colour on the next one, at any width |
| `SoftWrap.LogicalToVisual` | internal/ui/widgets/textviewentry.go:256-279 | The scan computes Locate |
| `SoftWrap.LocateCorrect` | internal/ui/widgets/textviewentry.go:256-279 | It lands in the chunk that shows the position; column offset plus column is the column asked for |
| `SoftWrap.PointInBounds` | internal/ui/widgets/textviewentry.go:494-520 | A position computed from a point lies in the text, wherever the point is |
| `SoftWrap.PointBeside` | internal/ui/widgets/textviewentry.go:494-520 | A point beside the text gives the nearest place: first or last visual line, and the near end of a line |
| `SoftWrap.RoundTrip` | internal/ui/widgets/textviewentry.go:494-520 | Visual to logical and back is the identity, except that the end of a chunk with a successor in its line becomes the start of that successor |
| `EditorText.NormaliseNoCr` | internal/ui/widgets/textviewentry.go:119-126 | No carriage return survives splitRaw |
| `EditorText.LinesPlain` | internal/ui/widgets/textviewentry.go:119-126 | Splitting gives lines without line breaks that join to the text |
| `EditorText.UnlinesPlain` | internal/ui/widgets/textviewentry.go:162-168 | Joining such lines and splitting gives them back |
| `EditorText.CutText` | internal/ui/widgets/textviewentry.go:119-126 | A line and column and an offset into the flat text name the same place |
| `EditorText.PosOfInText` | internal/ui/widgets/textviewentry.go:119-126 | The other direction: every offset is a line and column in the text, at that offset |
| `EditorText.OffsetMonotone` | internal/ui/widgets/textviewentry.go:522-529 | The order of normaliseSelection is the order of the flat text |
| `EditorText.SpliceIsSplice` | internal/ui/widgets/textviewentry.go:290-336 | Replacing lines between two places is one splice of the flat text, and EndOfInsert is the end of what was put in |
| `EditorText.DeleteThenInsert` | internal/ui/widgets/textviewentry.go:590-596 | Deleting the selection first and inserting afterwards is that one splice |
| `EditorText.KeptBefore` | internal/ui/widgets/textviewentry.go:290-336 | A place before an edit keeps its line, column and offset |
| `EditorSpec.StepKeeps` | internal/ui/widgets/textviewentry.go:576-1080 | Every event that finds its anchor in the text keeps the cursor and both ends of a selection inside the text, the undo entries inside theirs, and the stack at most 100 long |
| `EditorSpec.StepInBoundsIff` | internal/ui/widgets/textviewentry.go:576-1080 | From any view within bounds, any event stays within bounds if and only if it does not select from an anchor outside the text; only drags and caret moves of a shift selection do that |
| `EditorSpec.DragInBoundsIff` | internal/ui/widgets/textviewentry.go:576-585 | A drag stays within bounds if and only if the anchor of its press is still in the text |
| `EditorSpec.FocusLostKeepsIff` | internal/ui/widgets/textviewentry.go:1058-1067 | Losing focus keeps the invariant if and only if it does not leave a drag with a shift selection |
| `EditorSpec.EditKeeps` | internal/ui/widgets/textviewentry.go:589-773 | The splice behind every edit keeps it |
| `EditorSpec.IndentKeeps` | internal/ui/widgets/textviewentry.go:734-757 | So does indenting a selection, with both ends moved along |
| `EditorRuns.StaysInBounds` | internal/ui/widgets/textviewentry.go:576-1080 | Over all runs of events the cursor, both ends of a selection and every remembered cursor stay inside the text |
| `EditorLimits.RunInBoundsIff` | internal/ui/widgets/textviewentry.go:576-1080 | A whole run stays within bounds if and only if every event in it that selects from the anchor finds the anchor in the text |
| `EditorLimits.QuietStaysIn` | internal/ui/widgets/textviewentry.go:576-1080 | As long as no event changes the text, an anchor in it keeps every run within bounds |
| `EditorLimits.AfterFocusLost` | internal/ui/widgets/textviewentry.go:1058-1067 | So also after focus was lost in a drag with a shift selection |
| `EditorRuns.PushOrKeep` | internal/ui/widgets/textviewentry.go:281-288 | An edit remembers exactly the state before it; every other event but undo and SetText leaves text and stack alone |
| `EditorRuns.StackIsLastHundred` | internal/ui/widgets/textviewentry.go:281-288 | After any run the undo stack is exactly the last hundred states before edits |
| `EditorRuns.UndoRestores` | internal/ui/widgets/textviewentry.go:944-959 | After any run, k undos bring back text and cursor from before the k-th last edit, for every k up to a hundred |
| `EditorRuns.UndoAllRestoresStart` | internal/ui/widgets/textviewentry.go:944-959 | Up to a hundred edits with any navigation between, then as many undos: the starting text and the cursor of the first edit |
| `EditorRuns.UndoStopsAtHundred` | internal/ui/widgets/textviewentry.go:281-288 | Beyond a hundred, undo walks back the last hundred states and stops |
| `EditorRuns.CutRemovesSelected` | internal/ui/widgets/textviewentry.go:978-991 | Cut removes exactly the selected part and leaves the cursor where it was |
| `EditorRuns.CutThenPaste` | internal/ui/widgets/textviewentry.go:978-1046 | Cut and then Paste of the cut text restores the text, the cursor at the end of it |
| `EditorRuns.SelectAllSelectsAll` | internal/ui/widgets/textviewentry.go:961-971 | After select-all the selected text is the whole text |
| `EditorRuns.HomeAndEnd` | internal/ui/widgets/textviewentry.go:871-895 | Home and End put the cursor next to the nearest line breaks, or at an end of the text |
| `EditorRuns.TypeThenBackspace` | internal/ui/widgets/textviewentry.go:589-686 | Backspace takes back a typed character or line break: text and cursor are as before |
| `EditorRuns.LeftAndRight` | internal/ui/widgets/textviewentry.go:775-831 | Left and Right take each other back, away from the ends of the text |
| `EditorKeys.TypingReplaces` | internal/ui/widgets/textviewentry.go:589-773 | A typed rune, Return, Tab, Paste and Cut replace the text between the two ends of the selection, or at the cursor, by just what was typed; the cursor goes behind it, no selection is left, the state before is remembered |
| `EditorKeys.ReturnAndTabType` | internal/ui/widgets/textviewentry.go:711-773 | Return types a line break, Tab without a selection four blanks |
| `EditorKeys.ErasingReplaces` | internal/ui/widgets/textviewentry.go:657-709 | Backspace and Delete remove the selection, or the one character before or behind the cursor, if there is one |
| `EditorKeys.TabIndents` | internal/ui/widgets/textviewentry.go:734-757 | Tab with a selection puts four blanks in front of every line it touches and changes no other line; both ends stay beside the characters they stood beside, but a start at the head of its line stays there; so does the cursor, or it goes to the end of the selection if it was not in its first line |
| `EditorKeys.ArrowMoves` | internal/ui/widgets/textviewentry.go:775-895 | Without shift an arrow key goes one character, one line with the nearest column, or to an end of the line, and drops the selection; Left and Right with a selection go to its earlier and later end |
| `EditorKeys.ShiftArrowSelects` | internal/ui/widgets/textviewentry.go:775-895 | With shift it goes to the same place and selects from where the first such key was pressed |
| `EditorKeys.ShiftRunSelects` | internal/ui/widgets/textviewentry.go:775-895 | Any number of arrow keys with shift select the text between where they began and where they ended |
| `EditorKeys.ShiftUpEnds` | internal/ui/widgets/textviewentry.go:1058-1080 | After shift is up, or focus is lost outside a drag, arrow keys select nothing |
| `EditorKeys.PageMoves` | internal/ui/widgets/textviewentry.go:897-926 | PageUp and PageDown go to the first column of the visual line a screenful away, or of the first or last |
| `EditorKeys.PressAndDragSelect` | internal/ui/widgets/textviewentry.go:576-585 | A press and a drag select the text between the two points, the cursor at the second |
| `EditorKeys.WordIsSelected` | internal/ui/widgets/textviewentry.go:1482-1512 | A double tap selects the characters of the word |
| `EditorKeys.LoadingResets` | internal/ui/widgets/textviewentry.go:102-116 | A loaded text is normalised, the cursor at its start, nothing selected, nothing to undo |
| `EditorKeys.LineEndingsAreOne` | internal/ui/widgets/textviewentry.go:119-126 | The three line endings give one text |
| `EditorLimits.TypedRuneInBoundsIff` | internal/ui/widgets/textviewentry.go:589-619 | Typing one rune at a place leaves the cursor inside the text if and only if the rune is neither LF nor CR |
| `EditorLimits.TypedOverInBoundsIff` | internal/ui/widgets/textviewentry.go:589-619 | The same on a whole view, where the rune replaces the selection |
| `EditorLimits.DragAfterEditLeavesText` | internal/ui/widgets/textviewentry.go:576-585 | A press, a deletion and a drag: the selection then begins outside the text |
| `EditorLimits.DraggedWithShift` | internal/ui/widgets/textviewentry.go:1549-1557 | A run that drags with a shift selection in progress |
| `EditorLimits.FocusLostInDragLeavesText` | internal/ui/widgets/textviewentry.go:1058-1067 | Losing focus in that state, and what follows, selects from an anchor outside the text |
| `EditorLines.SelectedLines` | internal/ui/widgets/textviewentry.go:531-572 | The pieces between two places spell the part of the flat text between their offsets |
| `EditorLines.InsertRefined` | internal/ui/widgets/textviewentry.go:589-619 | What an insertion does to the lines is what the splice does to the flat text |
| `EditorLines.EraseStep` | internal/ui/widgets/textviewentry.go:657-709 | Backspace and Delete without a selection remove the text up to the neighbouring place, if there is one |
| `EditorLines.StepCaret` | internal/ui/widgets/textviewentry.go:775-831 | Left and Right go to the neighbouring place, or to an end of the selection |
| `TextViewEntry.TextViewEntry.SetText` | internal/ui/widgets/textviewentry.go:102-116 | Text, cursor, selection, undo stack and scroll offset after SetText |
| `TextViewEntry.TextViewEntry.Visual` | internal/ui/widgets/textviewentry.go:139-158 | The visual cache always returns the wrap of the current text at the current width, and its tokens |
| `TextViewEntry.TextViewEntry.CommitLines` | internal/ui/widgets/textviewentry.go:162-168 | Committing lines invalidates the cache |
| `TextViewEntry.TextViewEntry.Resize` | internal/ui/widgets/textviewentry.go:1148-1160 | A resize blanks the cache key and keeps the invariant: a valid cache is the wrap of the current text, not of its key |
| `TextViewEntry.TextViewEntry.EnsureCursorVisible` | internal/ui/widgets/textviewentry.go:338-349 | Afterwards the visual line of the cursor is among the visible ones |
| `TextViewEntry.TextViewEntry.PushUndo` | internal/ui/widgets/textviewentry.go:281-288 | The stack after a push, the oldest entry dropped at a hundred |
| `TextViewEntry.TextViewEntry.DeleteSelection` | internal/ui/widgets/textviewentry.go:290-336 | The lines without the selection, cursor and flags |
| `TextViewEntry.TextViewEntry.SelectedText` | internal/ui/widgets/textviewentry.go:531-572 | selectedText is exactly the part of the flat text an edit would replace |
| `TextViewEntry.TextViewEntry.TypedRune` | internal/ui/widgets/textviewentry.go:589-619 | A rune is one splice, cursor behind it; cursor and invariant hold afterwards if and only if the rune is no line break |
| `TextViewEntry.TextViewEntry.TypedBackspace` | internal/ui/widgets/textviewentry.go:657-686 | Backspace is its splice of the flat text |
| `TextViewEntry.TextViewEntry.TypedDelete` | internal/ui/widgets/textviewentry.go:688-709 | Delete is its splice |
| `TextViewEntry.TextViewEntry.TypedReturn` | internal/ui/widgets/textviewentry.go:711-732 | Return is its splice |
| `TextViewEntry.TextViewEntry.TypedTab` | internal/ui/widgets/textviewentry.go:734-773 | Tab is its splice, or indents the selected lines |
| `TextViewEntry.TextViewEntry.TypedLeftRight` | internal/ui/widgets/textviewentry.go:775-831 | Left and Right, with and without shift and selection |
| `TextViewEntry.TextViewEntry.TypedMove` | internal/ui/widgets/textviewentry.go:833-895 | Up, Down, Home and End, with and without shift |
| `TextViewEntry.TextViewEntry.TypedKey` | internal/ui/widgets/textviewentry.go:621-931 | Every key with a case, the page keys too, refines its event on the flat text; any other changes nothing; bounds and cache are kept |
| `TextViewEntry.TextViewEntry.TypedPage` | internal/ui/widgets/textviewentry.go:897-926 | PageUp and PageDown go to the start of the chunk a screenful away |
| `TextViewEntry.TextViewEntry.ShortcutUndo` | internal/ui/widgets/textviewentry.go:944-959 | Undo brings back the last remembered state |
| `TextViewEntry.TextViewEntry.ShortcutSelectAll` | internal/ui/widgets/textviewentry.go:961-971 | Select-all selects the whole text |
| `TextViewEntry.TextViewEntry.ShortcutCopy` | internal/ui/widgets/textviewentry.go:973-976 | Copy puts the selected text on the clipboard |
| `TextViewEntry.TextViewEntry.ShortcutCut` | internal/ui/widgets/textviewentry.go:978-991 | Cut puts the selected text on the clipboard and is its splice |
| `TextViewEntry.TextViewEntry.ShortcutPaste` | internal/ui/widgets/textviewentry.go:993-1046 | Paste of one line or of many is one splice of the normalised clipboard text |
| `TextViewEntry.TextViewEntry.KeyDown` | internal/ui/widgets/textviewentry.go:1069-1073 | Shift goes down |
| `TextViewEntry.TextViewEntry.KeyUp` | internal/ui/widgets/textviewentry.go:1075-1080 | Shift comes up |
| `TextViewEntry.TextViewEntry.FocusLost` | internal/ui/widgets/textviewentry.go:1058-1067 | The flags after losing focus; the invariant is kept if and only if no drag leaves a shift selection behind |
| `TextViewEntry.TextViewEntry.PosFromPoint` | internal/ui/widgets/textviewentry.go:494-520 | The position of a point lies in the text |
| `TextViewEntry.TextViewEntry.CaretIsUnderPoint` | internal/ui/widgets/textviewentry.go:494-520 | A point where the caret is shown gives the place of the caret |
| `TextViewEntry.TextViewEntry.MouseDown` | internal/ui/widgets/textviewentry.go:1447-1472 | A press puts cursor and anchor at the point and drops the selection |
| `TextViewEntry.TextViewEntry.Dragged` | internal/ui/widgets/textviewentry.go:576-585 | A drag selects from the anchor to the point; the invariant is kept if and only if the anchor is in the text |
| `TextViewEntry.TextViewEntry.DragEnd` | internal/ui/widgets/textviewentry.go:1559-1568 | The end of a drag |
| `TextViewEntry.TextViewEntry.WordAt` | internal/ui/widgets/textviewentry.go:1498-1505 | The word at a column: word characters only, none left out on either side |
| `TextViewEntry.TextViewEntry.DoubleTapped` | internal/ui/widgets/textviewentry.go:1482-1512 | A double tap selects that word, and nothing on an empty line |
| `RawRequest.HeaderEnd` | internal/http/rawrequest.go:198-206 | The first CRLFCRLF of a message is the end of its header lines, when no line has a line feed inside and none but the first is empty |
| `RawRequest.MessageSplits` | internal/http/rawrequest.go:198-206 | Such a message splits into exactly the lines and the body it was built from |
| `RawRequest.NormalisedIsMessage` | internal/http/rawrequest.go:210-215 | The normalised text of any input is such a message, and which lines and body it has |
| `RawRequest.NormaliseKeepsBodyIff` | internal/http/rawrequest.go:210-215 | Normalising leaves the body alone if and only if the header has no empty line inside |
| `RawRequest.BodyMovesExample` | internal/http/rawrequest.go:198-215 | A request delimited by line feeds whose body has a CRLFCRLF: that is where it is cut, and normalising moves header text into the body |
| `RawRequest.NormaliseIdempotent` | internal/http/rawrequest.go:210-215 | Normalising twice is normalising once |
| `RawEndings.FeedsAreMessage` | internal/http/rawrequest.go:198-215 | Both delimiters mean the same: lines that end with a line feed, an empty line and a body without CRLFCRLF are normalised to the message of those lines and that body |
| `RawEndings.NoEmptyLineIsHeader` | internal/http/rawrequest.go:198-215 | A text without an empty line is all header, with either line ending |
| `RawRequest.RequestLineOfMessage` | internal/http/rawrequest.go:103-116 | Rewriting the request line changes the first line only |
| `RawRequest.RequestLineFields` | internal/http/rawrequest.go:103-116 | The rewritten request line has the method and target of the given one and version 1.1 |
| `RawRequest.NewRequestLineIdempotent` | internal/http/rawrequest.go:103-116 | Rewriting it twice is rewriting it once |
| `RawRequest.RewriteHeadersLoop` | internal/http/rawrequest.go:225-296 | The loops of rewriteHeaders compute Headers |
| `RawFraming.KindBegins` | internal/http/rawrequest.go:243-262 | No line begins with two of the header names: the order of the switch does not matter |
| `RawFraming.HeadersByKind` | internal/http/rawrequest.go:225-296 | For each header name, which lines of it the rewritten header has |
| `RawFraming.HeadersSplittable` | internal/http/rawrequest.go:225-296 | The rewritten header lines have no line feed inside and none but the first is empty |
| `RawFraming.PreparedIsFramed` | internal/http/rawrequest.go:69-71 | For any raw text: the first CRLFCRLF ends the header, the body is that of the normalised text, no Transfer-Encoding or Accept-Encoding is left, and there is one Content-Length, the body length in decimal, exactly when the body is not empty |
| `RawFraming.PreparedKeepsTheRest` | internal/http/rawrequest.go:225-296 | All other lines are kept in order; host lines lose a default port; Connection is always close; cookies are the jar or the request lines |
| `RawEndings.TypedIsSent` | internal/http/rawrequest.go:69-71 | Whatever line ending a request is typed with: what is sent is one message with just its body, framed by its length; without an empty line the body is empty |
| `RawEndings.DefaultPortGoes` | internal/http/rawrequest.go:262-270 | A Host line whose value is a host with port 80 or 443, bracketed or not, is left with its host |
| `RawEndings.OtherPortStays` | internal/http/rawrequest.go:262-270 | A Host line with any other port or none is kept as it is |
| `RawEndings.CookieLineHolds` | internal/http/rawrequest.go:279-286 | The line of the jar names every entry, in order |
| `RawIdempotent.PrepareIdempotentIff` | internal/http/rawrequest.go:69-71 | With a first line that is no header, and the same jar in the same order, preparing twice is preparing once if and only if no host line shows a second default port once brackets and port are gone |
| `RawIdempotent.RequestLineIsOther` | internal/http/rawrequest.go:103-116 | A request line whose method has no colon is such a first line |
| `RawIdempotent.NestedIsBracketed` | internal/http/rawrequest.go:262-270 | Only a bracketed host with a colon inside can fail |
| `RawIdempotent.NestedExample` | internal/http/rawrequest.go:262-270 | A whole request with Host: [a:80]:80 that the second preparation changes, whatever the jar and the body |
| `Words.ThreeFields` | internal/http/rawrequest.go:108-114 | Three words with single blanks between them are the three fields |
| `Words.NumberOfDec` | internal/http/rawrequest.go:289-292 | The decimal text of a number stands for it |
| `Words.TrimSpaceMeans` | internal/http/rawrequest.go:263-263 | Trimming takes white space only, and all of it on both sides |
| `HostPort.SplitJoin` | internal/ui/history.go:187-189 | Splitting undoes joining of host and port if and only if the host has no brackets |
| `RequestPatch.ParseRawHeaders` | internal/http/rawrequest.go:176-193 | The loop builds the header map |
| `RequestPatch.ParsedValues` | internal/http/rawrequest.go:176-193 | The map has exactly the values of each canonical name, in order |
| `RequestPatch.CanonMeans` | internal/http/rawrequest.go:188-190 | A canonical name has capitals at its start and after hyphens and small letters elsewhere |
| `RequestPatch.PatchRawLoop` | internal/ui/repeater.go:173-224 | The nested loops of patchRaw compute PatchRaw |
| `RequestPatch.TextField` | internal/ui/repeater.go:204-206 | A rewritten header keeps its name and takes the new value |
| `RequestPatch.TokensFoldable` | internal/ui/repeater.go:205-205 | Token names equal ignoring case have one canonical form |
| `RequestUntouched.UntouchedIff` | internal/ui/repeater_http.go:66-91 | When the plugin changed nothing: for every text, target and map order the normalised text comes back byte for byte if and only if the target is kept and the first field of each name already has the value its last key writes there |
| `RequestUntouched.AnyOrderIff` | internal/ui/repeater.go:194-214 | The fields agree in every order of the map if and only if every key that names a field has its value |
| `RequestUntouched.AgreesIffDistinct` | internal/ui/repeater.go:194-214 | With names that fold to one canonical form, as tokens do, the fields agree if and only if no two names are equal ignoring case |
| `RequestUntouched.UntouchedDistinct` | internal/ui/repeater.go:173-224 | Names distinct ignoring case are enough, tokens or not, whatever the order |
| `RequestUntouched.RepeatedNameExample` | internal/ui/repeater.go:194-214 | A request with one header name twice is changed by a plugin that changes nothing, whatever body, method, target and order |
| `RequestChanges.PatchedInPlace` | internal/ui/repeater.go:194-214 | Whatever map the plugin gives back, in any order: the first header of each name has the value of the last key that names it, in its place and spelling; keys without a header are appended, or rewrite what an earlier key of their name appended; all other lines stay |
| `RequestChanges.ValueMeans` | internal/ui/repeater.go:195-198 | The value written for a key is its values with a comma and a blank between them |
| `RequestChanges.ExtraOfKeys` | internal/ui/repeater.go:208-214 | For such keys one line is appended for each key without a header, and no other |
| `RequestChanges.OrderDoesNotMatter` | internal/ui/repeater.go:194-214 | For keys that are tokens and differ ignoring case the order of the map matters for the order of the appended lines only |
| `RequestChanges.PatchedRequest` | internal/ui/repeater.go:173-224 | The whole request for any answer of the plugin: the request line, new only if method or target changed, the headers as above, the body, new only if changed. A new request line is read back as method, target and HTTP/1.1 if and only if both are words |
| `Tokeniser.StringEndIsScan` | internal/ui/widgets/tokeniser.go:236-264 | Counting backslashes backwards ends a string where a forward scan with an escape state ends it (section 7 of RFC 8259) |
| `Tokeniser.JsonToken` | internal/ui/widgets/tokeniser.go:233-299 | Every token is a non-empty piece of the line at its place; it is a string token exactly when it begins with a quote, and others contain none |
| `Tokeniser.TokeniseJSON` | internal/ui/widgets/tokeniser.go:226-302 | The loop computes the tokens |
| `Tokeniser.JsonLossless` | internal/ui/widgets/tokeniser.go:226-302 | The tokens of a JSON line spell it |
| `Tokeniser.StringsAreStrings` | internal/ui/widgets/tokeniser.go:226-302 | Exactly the characters that a JSON reader sees inside strings are coloured as keys or strings |
| `TokenKinds.JsonKindsMean` | internal/ui/widgets/tokeniser.go:233-299 | Every token of a JSON line by the line alone: a string is a key if and only if a colon follows it, blanks aside; which characters numbers, words and punctuation begin with, and how far they run |
| `Tokeniser.MetaLossless` | internal/ui/widgets/tokeniser.go:145-161 | The tokens of a header line spell it |
| `Tokeniser.StartText` | internal/ui/widgets/tokeniser.go:164-215 | What the tokens of a start line spell: the line, or its words with single blanks when it is taken apart |
| `Tokeniser.StartLosslessIff` | internal/ui/widgets/tokeniser.go:164-215 | They spell the line itself if and only if it is not taken apart or had single blanks only |
| `Tokeniser.LostBlankExample` | internal/ui/widgets/tokeniser.go:164-215 | A start line with two blanks in a row is shown with one |
| `TokenKinds.HeaderKinds` | internal/ui/widgets/tokeniser.go:145-161 | A header line is its name up to the first colon, the colon, and the rest |
| `TokenKinds.ResponseKinds` | internal/ui/widgets/tokeniser.go:174-204 | A response line is version, status by its first digit, and the rest |
| `TokenKinds.RequestKinds` | internal/ui/widgets/tokeniser.go:206-213 | A request line is method, target and the rest |
| `TokenKinds.OtherStartKinds` | internal/ui/widgets/tokeniser.go:164-215 | Any other start line is plain |
| `TokenWrap.WrapTokens` | internal/ui/widgets/tokeniser.go:305-362 | Wrapping keeps every character and its colour; every line fits the width or is one over-long string or key; no line ends early; the strings and keys of the lines are those of the input, none split |
| `TokenWrap.PlaceString` | internal/ui/widgets/tokeniser.go:329-338 | A string goes whole onto the current line or a fresh one |
| `TokenWrap.PlaceRunes` | internal/ui/widgets/tokeniser.go:340-357 | Any other token is cut only where a line is full |
| `ParseText.DetectContentType` | internal/ui/widgets/tokeniser.go:123-141 | The first Content-Type line, if no empty line comes before it, decides by what it names; without one the body is plain text |
| `TokenKinds.NamedMeans` | internal/ui/widgets/tokeniser.go:123-141 | The content type is JSON if "json" occurs in the line, else HTML if "html" does |
| `TokenKinds.BodyKinds` | internal/ui/widgets/tokeniser.go:218-223 | Body lines are tokenised as JSON for JSON only |
| `ParseText.ParseAndWrap` | internal/ui/widgets/tokeniser.go:83-120 | Every visual line belongs to one logical line, and the lines of each are its tokens wrapped |
| `ParseText.GroupSpells` | internal/ui/widgets/tokeniser.go:83-120 | The visual lines of a logical line spell it, but for the blank line after the header and a start line that is taken apart |
| `TokenKinds.LinesAreShown` | internal/ui/widgets/tokeniser.go:83-120 | Lines before the first blank one after the start line are header lines, that one is shown empty, and those behind it are JSON if the Content-Type says so, else plain |
| `ParseText.ShownAsIsIff` | internal/ui/widgets/tokeniser.go:83-120 | A logical line is shown as it is if and only if it is no separator with blanks in it and no start line taken apart at more than single blanks |
| `TextView.TextView.SetText` | internal/ui/widgets/textview.go:109-124 | The fields after the critical section of SetText and whether a parse follows |
| `TextView.TextView.StartProcessing` | internal/ui/widgets/textview.go:136-141 | A new generation, busy, and the parse it starts |
| `TextView.TextView.Publish` | internal/ui/widgets/textview.go:146-168 | A finished parse publishes only in its own generation, and what follows |
| `TextView.TextView.CheckWrapWidth` | internal/ui/widgets/textview.go:612-629 | The fields after a layout and whether a parse follows |
| `TextView.StepKeeps` | internal/ui/widgets/textview.go:109-170 | Every interleaving of SetText, layouts, starts and finished parses keeps the invariant, and lines change only by a parse of the newest generation |
| `TextView.NoStaleParse` | internal/ui/widgets/textview.go:136-170 | In every reachable state busy means a parse of the newest generation is in flight, and an idle view with a known width shows the latest text unless that is empty |
| `TextView.ShownGrows` | internal/ui/widgets/textview.go:146-154 | The generations shown only go up |
| `TextView.BackgroundShrinks` | internal/ui/widgets/textview.go:136-170 | Every background step lessens the work left |
| `TextView.Settles` | internal/ui/widgets/textview.go:136-170 | Left alone, the view comes to rest after a bounded number of background steps, showing the latest text |
| `TextViewRest.SetTextArrives` | internal/ui/widgets/textview.go:109-168 | A text set in an idle view is what is shown at rest, at the width of the view |
| `TextViewRest.ResizeArrives` | internal/ui/widgets/textview.go:136-168 | After a resize by more than four the latest text is shown at the new width |
| `TextViewRest.ResizeParsesIff` | internal/ui/widgets/textview.go:612-629 | A layout leads to a parse if and only if there is a text and the width is the first one or more than four off |
| `TextViewRest.CallsAreLatest` | internal/ui/widgets/textview.go:109-168 | Every parse decided on is of the text and the width of that moment |
| `TextView.EmptyTextIsNotShown` | internal/ui/widgets/textview.go:156-165 | A run in which SetText of an empty text during a parse does not clear the view |
| `TextView.EmptyTextShownIff` | internal/ui/widgets/textview.go:109-168 | After SetText of an empty text and any background work to rest, the empty text is shown if and only if no parse was under way or the newest one was of an empty text |
| `TextView.EmptyPendingShowsLast` | internal/ui/widgets/textview.go:136-168 | With an empty text pending, what is shown at rest is the parse that started last, in every interleaving |
| `ScopeCache.MatchesScope` | internal/store/scope.go:106-116 | True for no entries, the host itself, or a subdomain of an entry |
| `ScopeCache.CoversMeans` | internal/store/scope.go:106-116 | Of other hosts an entry covers exactly those that end with a dot and the entry |
| `ScopeCache.BareMeans` | internal/store/scope.go:67-71 | A host is looked up without its port, with or without brackets |
| `ScopeCache.Store.InvalidateScopeCache` | internal/store/scope.go:98-103 | The cache is empty and unset |
| `ScopeCache.Store.Fill` | internal/store/scope.go:81-92 | The fill under the write lock: a hit, the queried rows, or after a failed query what was there |
| `ScopeCache.Store.InScope` | internal/store/scope.go:67-95 | One call with nothing in between |
| `ScopeCache.StepKeeps` | internal/store/scope.go:35-103 | Every interleaving of callers, writers and the write loop keeps the invariant |
| `ScopeCache.CacheAgrees` | internal/store/scope.go:35-103 | A set cache is the scope table unless a write has committed and not invalidated yet |
| `ScopeCache.NoReturnedWriteIgnored` | internal/store/scope.go:67-95 | A finished call whose query did not fail answers from a version no older than any write that had returned when it began |
| `ScopeCache.FloorCoversReturned` | internal/store/scope.go:35-62 | A call that begins after a successful write returned has that write below its floor |
| `ScopeCache.AddedStays` | internal/store/scope.go:35-47 | An added entry is in every later version until its deletion |
| `ScopeCache.DeletedIsGone` | internal/store/scope.go:50-62 | A deleted entry is in no later version |
| `ScopeCache.AddedIsInScope` | internal/store/scope.go:35-95 | The host of an entry added before the call began and its subdomains are in scope for it, unless the entry was deleted again by the version it answers from |
| `ScopeCache.DeletedPlaysNoPart` | internal/store/scope.go:50-95 | An entry deleted before the call began plays no part in its answer, unless its id came back by then: in scope means that another entry covers the host or none is left |
| `ScopeCache.RanOnceInOrder` | internal/store/project.go:80-116 | A write that has a result ran exactly once; closures run one at a time in the order they were accepted |
| `ScopeCache.FailedQueryIsInScope` | internal/store/scope.go:81-95 | A failed query puts every host in scope |
| `NodeId.HostIdRoundTrip` | internal/ui/history.go:160-183 | parseNodeID undoes a host id if and only if the host has no brackets |
| `NodeId.PathIdRoundTrip` | internal/ui/history.go:160-183 | parseNodeID undoes a path id if and only if the host has neither brackets nor a bar |
| `NodeId.KeyInjective` | internal/ui/history.go:187-189 | Different hosts or ports have different keys |
| `NodeId.KeyOfParsedIff` | internal/ui/history.go:160-189 | The node a key is parsed into has that key again if and only if the host has no brackets |
| `UrlPath.SplitPathLoop` | internal/ui/history.go:200-208 | The loop computes the non-empty segments |
| `UrlPath.SplitPathText` | internal/ui/history.go:200-208 | A path written from segments splits into them |
| `UrlPath.TreePathInUrl` | internal/ui/format.go:15-26 | Where the tree path lies in the URL |
| `UrlPath.TreePathOfUrl` | internal/ui/format.go:15-26 | The tree path of a URL is what stands between its host and its query |
| `UrlPath.TreePathOfHost` | internal/ui/format.go:15-26 | It is a slash when no slash follows the host |
| `UrlPath.TreePathOfPath` | internal/ui/format.go:15-26 | Without a scheme it is all up to the query |
| `SiteMap.SiteMap.Add` | internal/ui/history.go:44-58 | Adding a transaction adds the prefixes of its path below its host and nothing else |
| `SiteMapTree.PlacesOfUrl` | internal/ui/history.go:44-58 | The places of a URL with given host and segments: the host and every prefix of the segments |
| `SiteMap.SiteMap.FindNode` | internal/ui/history.go:93-103 | Following segments finds a node exactly when the place is in the tree |
| `SiteMap.SiteMap.ChildUIDs` | internal/ui/history.go:66-119 | The sorted list, each id once, of the ids of the places one segment below; under the root, of the listed hosts |
| `SiteMap.ListedMeans` | internal/ui/history.go:70-88 | Which hosts the filters leave: those in scope that show the text in either case, default ports not shown |
| `Sorting.SortedUnique` | internal/ui/history.go:66-119 | There is only one such list |
| `SiteMap.SiteMap.IsBranch` | internal/ui/history.go:121-143 | A node other than the root is a branch exactly when it has children |
| `SiteMapTree.AddAll` | internal/ui/history.go:44-58 | A list of adds gives the union of their places |
| `SiteMapTree.PlacesAreUnion` | internal/ui/history.go:44-58 | A place is in the union when it is a prefix of some transaction |
| `SiteMapTree.SameTransactionsSameMap` | internal/ui/history.go:44-58 | Order and repetition do not matter |
| `SiteMapTree.IdRoundTripIff` | internal/ui/history.go:160-183 | The id of a place is parsed back to the place if and only if the host has no brackets and, below the host, no bar |
| `SiteMapTree.SameIdIff` | internal/ui/history.go:66-119 | For any two host:port keys: two different places under them can have one id if and only if one key is the other, a bar and the start of a path |
| `SiteMapTree.IdInjective` | internal/ui/history.go:66-119 | So different places have different ids, bracketed hosts or not, if no host has a bar |
| `SiteMapTree.SameIdExample` | internal/ui/history.go:66-119 | With a bar two places can have one id |
| `SiteMapTree.ObservedOkIff` | internal/store/history.go:350-374 | A stored response meets what the next two rows ask of a transaction if and only if its host has no bar: a bracketed host always gets a port |
| `SiteMapTree.ReachedExactly` | internal/ui/history.go:66-119 | With the filters off, the nodes reachable from the root are exactly: the root, every host, and every prefix of an added path whose host has no brackets |
| `SiteMapTree.AllReachedIff` | internal/ui/history.go:66-119 | Everything added is reachable if and only if no host with brackets has a path below it |
| `SiteMapTree.OkHostReached` | internal/ui/history.go:66-119 | Whatever the other hosts are, every place under a host with neither brackets nor a bar is reached |
| `SiteMapTree.ReachedWasAdded` | internal/ui/history.go:66-119 | Whatever the hosts are, nothing is reached that was not added: an id below the root is that of a host, or names host, port and segments that were added |
| `HistoryQuery.PreFilterLosesNothing` | internal/store/history.go:191-199 | Every URL whose tree path is the prefix or lies under it matches one of the three LIKE patterns, for any prefix |
| `HistoryFilters.PathLikeIff` | internal/store/history.go:191-199 | For a prefix without wildcards, what it lets through: URLs that end with the prefix or contain it with a question mark or a slash behind it |
| `HistoryQuery.BuildConditions` | internal/store/history.go:170-229 | The conditions in the order they are added |
| `HistoryQuery.ClauseMeans` | internal/store/history.go:170-229 | The grown clause means what the filter asks for |
| `HistoryFilters.TermInIff` | internal/store/history.go:201-209 | A word without wildcards is in a row when it occurs, in either case, in its host, URL, method or status |
| `HistoryFilters.SearchFinds` | internal/store/history.go:201-209 | A search selects exactly the rows in which each of its words occurs |
| `HistoryQuery.MatchesFilter` | internal/ui/history.go:226-280 | The exact filter; with static files hidden it accepts what it accepts without, but for tree paths that end with one of the extensions |
| `HistoryQuery.HideStaticDrops` | internal/ui/history.go:260-267 | Hiding static files drops exactly the rows whose lowered tree path ends with an extension of the list |
| `HistoryFilters.FiltersAgree` | internal/ui/history.go:226-270 | Exact filter and query ask for the same: without search and static files, and a host if there is a port, a row passes if and only if it meets the query and its path is the prefix or lies under it |
| `HistoryFilters.ExactOfQueried` | internal/ui/history.go:226-270 | Of the rows of the query the exact filter keeps those at or under the path, no static file if they are hidden, and of the port if one is asked for |
| `HistoryQuery.QuerySeesExact` | internal/ui/history.go:390-406 | Every row the exact filter would keep and that meets the rest of the query is selected by it |
| `HistoryPaging.TransactionsPage` | internal/store/history.go:169-245 | A page is the first hundred rows of the unpaged query below the cursor, all of them if there are fewer |
| `HistoryPaging.SelectExact` | internal/store/history.go:231-237 | The unpaged query has exactly the matching rows, each once, in strictly descending id order |
| `HistoryPaging.SelectBelow` | internal/store/history.go:173-176 | Going on below a row gives exactly the rows after it |
| `HistoryPaging.SelectIgnoresNew` | internal/store/history.go:173-176 | Rows with larger ids do not change what lies below a cursor |
| `HistoryPaging.ExportRows` | internal/ui/har.go:25-44 | The paging loop ends and collects exactly the unpaged query of the table at its first page, whatever arrives meanwhile |
| `HistoryPaging.FetchPage` | internal/ui/history.go:390-406 | A page of the query, filtered exactly: which of its rows are shown, and the unfiltered count |
| `HistoryPaging.RefilterMissesNothing` | internal/ui/history.go:390-406 | Filtering the query exactly keeps every row that passes the exact filter and the rest of the query |

## Left out

- Fyne widgets, renderers, pixel geometry, scroll fractions, the scrollbar and the blinking cursor: user interface.
- Sockets, TLS, HTTP/2, WebSocket, SQLite, the Lua plugins and file dialogs: foreign code and I/O.
- The order in which waiting Hold calls get the semaphore: the code does not promise one.
- `HandleRequest` of the gate: it only maps the result of Hold.
- InterceptGate.Gate.SetEnabled: the two sections with nothing in between; what can happen between them is in `InterceptProtocol`.
- InterceptGate.InterceptTab.WatchQueue: the pendings of one moment; arrivals and cancellations meanwhile are in `InterceptProtocol`.
- Closing the store under in-flight senders: only an open store is modelled.
- Invalid UTF-8: editor and tokeniser count runes, requests count bytes; conversions between them are not modelled.
- Letter case and blanks beyond ASCII: names such as `coo` + U+212A + `ie` that lower to ASCII, and Unicode spaces.
- A blank between a header name and its colon: such a line counts as another header, as it does in the code.
- `ParseHostFromRaw` and the choice of port and TLS for a send.
- RequestUntouched.UntouchedIff: takes the request URI as given, because http.NewRequest and URL.RequestURI are not part of this model.
- Signs and the 64-bit range of port numbers; line numbers, counters and generations are unbounded.
- SiteMapTree.ReachedExactly: not for hosts with a bar, which net/http refuses and whose ids can coincide (for those only `OkHostReached`, `ReachedWasAdded` and `SameIdIff`), nor for bracketed hosts without a port, which are never stored (`ObservedOkIff`).
- SiteMapTree.AllReachedIff: the same.
- Deletion of history rows, `ClearHistory` and re-sorting during an export.
- Infinite scroll and prepending of live rows: the code does not keep them free of duplicates or complete.
- One visual line per blank body line: the code shows none, since empty token lists wrap to nothing.
- The width of the shown lines in `TextView`: small resizes are not parsed again, so it can lag behind.
- The shared slices behind `lines[i] = ...` in editor and patchRaw: lists are values, so aliasing is not modelled.
- Event bus, log buffers, loot, annotations, repeater tabs and HAR records: only easy members.
