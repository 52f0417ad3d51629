# Inline AI completion for a Python editor: a Dafny model

This project models the inline-suggestion pipeline of a small Tk code
editor that asks an OpenAI chat model to complete the line being typed. The
suggestion is shown as grey "ghost text" right after the cursor. Tab accepts
it, and typing, arrow keys or a click dismiss it. The model covers both
halves of the application:

- **The editor** (`code_editor.py`):
  - the key, release, click and Tab handlers;
  - the gate that decides whether a completion request starts, with its own 0.5 s debounce;
  - the context window around the cursor (the current line before the ghost text, the non-blank lines among the ten before and the five after);
  - showing, clearing and accepting ghost text in the widget;
  - the resolver that trims what the user already typed off a completion;
  - the truncation of the request shown in the chat pane.
- **The completion engine** (`ai_completion_engine.py`):
  - the API-key check;
  - the debounce of calls to the model;
  - the cache key;
  - the prompt template;
  - the `get_completion` flow: debounce, cache lookup, model call, strip, store, and a FIFO eviction that keeps at most 50 entries;
  - `get_stats`.

Modules, one per file:

- `Strings`: the `str` operations the pipeline uses, on ASCII text: `lower`, `strip`, `split()`, `split('\n')`, `join`, `find`/`in`, `startswith`, `replace(c, '')`, and the slices `s[-n:]` and `s[:n]`.
- `Position`: Tk text indices. A stored index (the ghost anchor, the position a request was made at) is a `line.col` pair. It is resolved against the document as it is when used, with Tk's clamping. The INSERT mark is an offset into the flat text. `index+Nc` counts characters across newlines.
- `Widget`: the text widget as a value. It holds the characters, which of them carry the `ghost_text` tag, and the INSERT mark. It offers `get`, `delete`, `insert` with the tag, `tag_remove` and `mark_set`.
- `Overlap`: the four strategies of `_trim_completion_overlap`, as a function and as the editor's loop.
- `Context`: `get_context_around_cursor`, as line-scanning loops over the document's lines.
- `RequestLog`: `_truncate_request_message`.
- `Prompt`: `_build_completion_prompt`, and what the chat pane shows of the prompt.
- `RateLimit`: the debounce rule shared by the two gates. Each gate keeps its own stamp.
- `CompletionCache`: the engine's insertion-ordered dict, as a key order plus a map.
- `Engine`: the engine as pure functions (`Complete`), and the class `CompletionEngine`, whose methods update the cache, the stamp and the request/response record in place.
- `Controller`: the ghost-text lifecycle as functions of the state. The state is the widget, `current_completion` and `ghost_text_start_pos`.
- `Editor`: the class `CodeEditor`. Its handlers update its fields in place, and each is proved to do what the matching `Controller` function says.

Time is an integer number of milliseconds, passed in. The model's answer is
a parameter `reply`: text, no text, or an exception. So the engine's
behaviour is stated for every possible answer.

Some behaviours of the code worth noting:

- The cache stores the stripped completion.
- Ghost text is excluded only from the current line, not from the lines before and after.
- A reply that is only whitespace is cached as `""` and returned as an empty completion. The editor then shows nothing (`Editor.BlankReplyShowsNothing`).
- A cache hit still moves the engine's stamp, because the debounce comes first.
- The editor records its request time as soon as its debounce passes, before the blank-line and end-of-line checks.
- Strategy 3 of the overlap resolver (token prefix) is kept as written. It is proved unreachable (`Overlap.TokenPrefixUnreachable`).

## Model

| member | source | states |
|---|---|---|
| Overlap.TrimOverlapDropsThroughFirstMatch | code_editor.py:541-561 | the shown text is the completion after the first case-insensitive occurrence of the typed word; the whole completion when there is none or the word is empty; a prefix match is the occurrence at 0 |
| Overlap.TrimOverlapIsSuffix | code_editor.py:544-583 | the shown text is a suffix of the completion, never longer |
| Overlap.TrimOverlapEmpty | code_editor.py:544-583 | nothing is shown exactly when the first occurrence of the word ends the completion |
| Overlap.TokenPrefixUnreachable | code_editor.py:564-579 | when the word does not occur in the completion, no token starts with it, so strategy 3 falls through to returning the completion unchanged |
| Overlap.PrefixOfPieceOccurs | code_editor.py:566 | a piece of the completion whose lower-case form starts with the word puts the word inside the lowered completion |
| Overlap.FirstTokenWithPrefix | code_editor.py:565-566 | the first token at or after k that starts with the word, or none; no earlier token does |
| Overlap.TrimCompletionOverlap | code_editor.py:530-583 | the editor's early returns and token loop compute the resolver's result, the completion after the first occurrence |
| Overlap.TrimAtFirstOccurrence | code_editor.py:553-561 | an occurrence at i with none before it decides the shown text, `completion[i+len(word):]` |
| Overlap.ExamplePrefix | code_editor.py:547-550 | "pri" and "print(x)" give "nt(x)" |
| Overlap.ExampleFirstOccurrence | code_editor.py:553-561 | "val" and "the value is here" give "ue is here" |
| Overlap.FirstOccurrenceMatch | code_editor.py:557 | "val" first occurs at offset 4 of "the value is here" |
| Overlap.ExampleInsideToken | code_editor.py:553-561 | "calc" and "def calculate_sum(a, b):" give "ulate_sum(a, b):" |
| Overlap.InsideTokenMatch | code_editor.py:557 | "calc" first occurs at offset 4 of "def calculate_sum(a, b):" |
| Overlap.ExampleMoreTokens | code_editor.py:547-550 | "fo" and "foo bar baz" give "o bar baz" |
| Overlap.ExampleEmptyWord | code_editor.py:541-542 | an empty word returns the completion unchanged |
| Overlap.ExampleCaseInsensitive | code_editor.py:547-550 | "PRI" and "Print(x)" give "nt(x)": matching ignores case, the output keeps the completion's case |
| Context.NonBlankLines | code_editor.py:341-362 | the scan keeps only non-blank lines and at most one per line number of the range |
| Context.NonBlankLinesSound | code_editor.py:344-348 | every kept line is one of the lines lo..hi-1 |
| Context.NonBlankLinesComplete | code_editor.py:344-348 | no non-blank line of the range is dropped |
| Context.NonBlankLinesSplit | code_editor.py:344-348 | scanning a range is scanning its two halves one after the other: the lines stay in document order |
| Context.WindowCutsKeepEverything | code_editor.py:341-362 | the "last 10" and "first 5" cuts never drop a line: the windows are all non-blank lines among max(1,L-10)..L-1 and L+1..min(total,L+5) |
| Context.BeforeKept | code_editor.py:342-350 | the scan before the line keeps at most ten lines, so `[-10:]` keeps them all |
| Context.AfterKept | code_editor.py:353-362 | the scan after the line keeps at most five lines, so `[:5]` keeps them all |
| Context.LineEndSlice | code_editor.py:346 | `get("n.0", "n.end")` is line n of the document |
| Context.CurrentLineIsSlice | code_editor.py:322-339 | the current line is the text from the start of the cursor's line to the ghost anchor when it is on that line, else to the cursor |
| Context.CutLine | code_editor.py:322-339 | the first col characters of line L are the text from "L.0" to "L.col" |
| Context.CollectNonBlankLines | code_editor.py:344-348 | the scanning loop collects exactly the non-blank lines of the range, in order |
| Context.SurroundingLines | code_editor.py:341-362 | the two scans and cuts give the joined before and after windows |
| Context.ReadCurrentLine | code_editor.py:322-339 | the line read from the widget is the current line cut at the anchor or the cursor |
| Context.GetContextAroundCursor | code_editor.py:313-364 | the three strings returned are the window defined for the cursor's index and the anchor |
| Context.AroundLine | code_editor.py:341-364 | with the current line read, the before and after windows complete the window |
| Position.EndPos | code_editor.py:318-320 | the index of a point has a line number of at least 1 |
| Position.Resolve | code_editor.py:270 | a `line.col` index denotes an offset inside the text |
| Position.Forward | code_editor.py:270 | "+Nc" moves N characters forward, stopping at the end of the text |
| Position.PosRoundTrip | code_editor.py:318 | reading the INSERT mark's index and resolving it gives the mark back |
| Position.PosInjective | code_editor.py:481-485 | two offsets have the same index exactly when they are equal, so comparing indices compares cursor positions |
| Position.EndPosResolves | code_editor.py:520-525 | the index of a point still denotes it once text is inserted after it |
| Position.LineStartResolves | code_editor.py:497-499 | the start of the line of a point does not depend on the text after the point |
| Position.LineSlice | code_editor.py:329-339 | the text from "L.0" to "L.C" is the first C characters of line L |
| Position.EndPosInLines | code_editor.py:318-320 | the index of a point names an existing line and a column within it |
| Position.CursorInLines | code_editor.py:318-320 | the INSERT index names an existing line and a column within it |
| Widget.Get | code_editor.py:277 | `get(s, e)` is the characters between the two offsets |
| Widget.Delete | code_editor.py:284 | `delete(s, e)` removes exactly that span and leaves a mark before it in place |
| Widget.InsertGhost | code_editor.py:520 | `insert` adds the characters at p, each carrying the ghost tag |
| Widget.Untag | code_editor.py:302 | `tag_remove` leaves text and mark alone and removes the tag from the span |
| Widget.MoveCursor | code_editor.py:305 | `mark_set(INSERT, off)` moves the mark and changes nothing else |
| Controller.Clear | code_editor.py:268-295 | clearing keeps the widget well formed; what it removes and resets is stated by Controller.ClearRemovesOnlyGhostText |
| Controller.ClearRemovesOnlyGhostText | code_editor.py:270-295 | with no suggestion, clearing does nothing; otherwise both fields are reset, and the text is unchanged or loses exactly the suggestion at its anchor, which carried the tag |
| Controller.ClearIdempotent | code_editor.py:268-295 | clearing twice is clearing once |
| Controller.StepsKeepCoherence | code_editor.py:42-45 | clear, accept, show and key press keep the anchor set exactly when there is a suggestion |
| Controller.KeyPressRule | code_editor.py:189-227 | a key press clears the suggestion exactly for arrows, single characters, Return, BackSpace, Delete and space; navigation and modifier keys keep it |
| Controller.ShowOutcomes | code_editor.py:481-517 | a completion for an index the cursor has left changes nothing; one that trims to nothing only clears |
| Controller.PlaceAtCursor | code_editor.py:520-525 | ghost text inserted at the cursor's index goes right after the cursor, tagged, and the cursor stays |
| Controller.SuggestionUsesTypedWord | code_editor.py:497-511 | the completion is trimmed against the last word of the line up to the cursor, and never grows |
| Controller.ShowWhenIdle | code_editor.py:488-525 | with no suggestion and the cursor at the request index, the trimmed completion, if any, is placed and recorded |
| Controller.ShowInsertsAtCursor | code_editor.py:483-525 | the text placed is the stripped completion less its overlap with the typed word, inserted tagged at the cursor, which stays; anchor and text are recorded |
| Controller.ClearPlaced | code_editor.py:268-295 | clearing ghost text just placed gives the widget back |
| Controller.AcceptPlaced | code_editor.py:297-311 | accepting keeps the text, drops the tag and moves the cursor to anchor+len |
| Controller.ShowSupersedes | code_editor.py:481-488 | with a suggestion on show and the cursor at the request index, at or before the ghost text, clearing keeps the cursor at that index, so showing over the suggestion is showing over the cleared state |
| Controller.ShowThenClear | code_editor.py:476-528 | a suggestion shown and then cleared leaves the state as it was |
| Controller.ShowThenAccept | code_editor.py:297-311 | a suggestion shown and then accepted becomes ordinary text after the old cursor, the cursor moves to its end, and nothing else changes |
| Controller.PlacedLineExcludesGhostText | code_editor.py:325-333 | while a suggestion is on show at the cursor, the current line sent with the next request is the line as typed |
| Controller.ContextExcludesGhostText | code_editor.py:325-333 | the same, for the state Show leaves |
| Controller.ContentGate | code_editor.py:383-437 | once the debounce has passed, the outcome is a blank line, mid-line or a request |
| Controller.RequestConditions | code_editor.py:370-437 | a request starts exactly when AI is enabled, the engine exists, 0.5 s have passed, the line is not blank and the cursor is within one column of the logical end; it carries the window and the cursor's index |
| Controller.ContentConditions | code_editor.py:397-428 | after the debounce, a request starts exactly for a non-blank line with the cursor at its logical end |
| Controller.StampBeforeContentChecks | code_editor.py:375-380 | the stamp moves to now whenever the debounce passes, also when the line is then blank or the cursor is mid-line |
| Controller.QuickRetriggerRefused | code_editor.py:375-380 | a second trigger within 0.5 s of one that passed the debounce is refused, whatever the line |
| Editor.CodeEditor.constructor | code_editor.py:25-56 | the engine exists exactly when the key is valid, AI starts enabled exactly then, and the state starts empty |
| Editor.CodeEditor.ClearGhostText | code_editor.py:268-295 | the widget and fields change as Clear says |
| Editor.CodeEditor.AcceptCompletion | code_editor.py:297-311 | the widget and fields change as Accept says |
| Editor.CodeEditor.ShowCompletion | code_editor.py:476-528 | the widget and fields change as Show says |
| Editor.CodeEditor.InsertTrimmed | code_editor.py:497-525 | after clearing, the trimmed text is placed at the request index and recorded, or nothing changes |
| Editor.CodeEditor.OnKeyPress | code_editor.py:189-227 | the suggestion is cleared exactly for the dismissing keys |
| Editor.CodeEditor.OnTextChange | code_editor.py:229-255 | a request is scheduled exactly by the release rule; with AI on and an engine, every key that keeps the suggestion on press other than Tab schedules one, and no arrow or Tab does |
| Controller.ReleaseAfterPress | code_editor.py:189-255 | with AI on and an engine, a key that does not dismiss on press, Tab aside, schedules a request on release; an arrow dismisses and schedules nothing; nothing is scheduled without AI or an engine or for Tab |
| Controller.ExampleKeptSuggestionIsRefreshed | code_editor.py:206-211 | Shift, Home and End keep a suggestion on show, and releasing them schedules a new request |
| Controller.SchedulesOnRelease | code_editor.py:241-242 | defines the release rule: AI on, an engine, and the key not an arrow or Tab |
| Editor.CodeEditor.OnClick | code_editor.py:257-259 | a click clears the suggestion |
| Editor.CodeEditor.OnTabKey | code_editor.py:261-266 | Tab accepts, and is consumed ("break") exactly when a suggestion was on show |
| Editor.CodeEditor.RequestAiCompletion | code_editor.py:366-439 | the gate's outcome and the new stamp are those Decide gives |
| Editor.CodeEditor.CheckContent | code_editor.py:383-437 | the blank-line and end-of-line checks give ContentGate's outcome |
| Editor.CodeEditor.GetCompletionAsync | code_editor.py:441-474 | the engine's cache, stamp, prompt record and response record after the call are those of Complete, the prompt recorded only when it is sent; a completion that is not blank is then shown at the request index |
| Editor.BlankReplyShowsNothing | ai_completion_engine.py:178-200 | a whitespace-only reply for a new key is cached as "", returned as "", and the editor shows nothing |
| RequestLog.TruncateLines | code_editor.py:647-653 | the kept lines are a prefix of the lines, never empty for a message |
| RequestLog.TruncateLinesStops | code_editor.py:647-653 | no kept line but the last mentions "no explanations", and the last one does when lines were dropped |
| RequestLog.TruncateRequestMessage | code_editor.py:643-655 | the editor's loop computes Truncate |
| RequestLog.KeepLines | code_editor.py:647-653 | the loop keeps the lines up to and including the first stop line |
| RequestLog.TruncateStep | code_editor.py:649-653 | one turn of the loop: a stop line ends the display, any other line is kept before the rest |
| RequestLog.TruncateIsPrefix | code_editor.py:643-655 | the shown request is a prefix of the prompt |
| RequestLog.JoinPrefix | code_editor.py:655 | joining a prefix of the lines gives a prefix of the text |
| RequestLog.TruncateLinesIdempotent | code_editor.py:647-653 | truncating the kept lines again keeps them all |
| RequestLog.TruncateIdempotent | code_editor.py:643-655 | truncating twice is truncating once |
| RequestLog.TruncateLinesAppend | code_editor.py:647-653 | lines before the first stop line pass through unchanged |
| RequestLog.TruncateAppend | code_editor.py:643-655 | a block without a stop line is shown in full, followed by the truncation of the rest |
| RequestLog.TruncateAtStop | code_editor.py:643-655 | a single stop line ends the display, whatever follows |
| RequestLog.TruncateJoin | code_editor.py:643-655 | blocks joined by newlines are shown through block k when k is a one-line stop line and no earlier block holds one |
| Prompt.PromptBlocks | ai_completion_engine.py:94-111 | the template has twelve blocks |
| Prompt.BuildPrompt | ai_completion_engine.py:89-113 | the prompt is the template's blocks joined by newlines; Prompt.PromptText writes it out |
| Prompt.PromptText | ai_completion_engine.py:94-111 | the prompt is the introduction, a blank line, "Context before:" over the context before, a blank line, the cursor label followed by the current line, a blank line, "Context after:" over the context after, a blank line, the instruction and the "Focus on:" list: each field whole, in that order |
| Prompt.TemplateText | ai_completion_engine.py:94-111 | the template's twelve blocks joined by newlines, for any pieces, written out |
| Prompt.JoinTwelve | ai_completion_engine.py:94-111 | twelve blocks joined by newlines are the blocks with a newline between each two |
| Prompt.JoinSnoc | ai_completion_engine.py:94-111 | joining one more block adds a newline and the block at the end |
| Prompt.PromptTruncatesAtInstruction | ai_completion_engine.py:94-111 | when no field mentions "no explanations", the chat pane shows the prompt through the instruction line and hides the "Focus on:" list |
| Prompt.BlocksBeforeInstruction | ai_completion_engine.py:94-103 | none of the ten template lines before the instruction holds a stop line |
| Prompt.InstructionFacts | ai_completion_engine.py:104 | the instruction is one line and mentions "no explanations" |
| Prompt.IntroLineFacts | ai_completion_engine.py:94 | the introduction line is one line and no stop line |
| Prompt.BeforeLabelFacts | ai_completion_engine.py:96 | "Context before:" is one line and no stop line |
| Prompt.AfterLabelFacts | ai_completion_engine.py:101 | "Context after:" is one line and no stop line |
| Prompt.CursorLineNoStop | ai_completion_engine.py:99 | the label followed by a line that does not mention the marker does not mention it |
| Prompt.CursorBlockNoStop | ai_completion_engine.py:99 | the cursor line of the prompt adds no stop line |
| Prompt.FieldLinesNoStop | ai_completion_engine.py:97-102 | no line of a field that does not mention the marker is a stop line |
| Prompt.LinesAfterLabel | ai_completion_engine.py:99 | a label and the first line of a field share a line of the prompt |
| RateLimit.Admitted | ai_completion_engine.py:59-66 | the calls let through are among the calls made |
| RateLimit.SecondCallRefused | ai_completion_engine.py:59-66 | after a call is let through, a second one less than delay later is refused |
| RateLimit.AdmittedSpaced | ai_completion_engine.py:59-66 | any two consecutive calls let through are at least delay apart, the first at least delay after the starting stamp |
| RateLimit.FinalStampIsLastAdmitted | ai_completion_engine.py:59-66 | the stamp ends at the last call let through, or where it started |
| CompletionCache.Empty | ai_completion_engine.py:29 | the initial cache is well formed and empty |
| CompletionCache.Store | ai_completion_engine.py:190-198 | storing keeps the cache well formed and finds the value under the key |
| CompletionCache.StoreKeys | ai_completion_engine.py:190-198 | storing adds the key; only a new key at a full cache drops another one, the oldest; every other entry keeps its completion |
| CompletionCache.StoreKeysFull | ai_completion_engine.py:194-198 | a new key at a full cache replaces the oldest |
| CompletionCache.StoreKeysRoom | ai_completion_engine.py:190 | an existing key, or a new one while there is room, evicts nothing |
| CompletionCache.StoreFresh | ai_completion_engine.py:190-198 | a new key is appended to the order; at a full cache the oldest key goes, with its entry |
| CompletionCache.CacheSize | ai_completion_engine.py:194-198 | there are never more than 50 entries |
| CompletionCache.StoreFreshKeepsRecent | ai_completion_engine.py:190-198 | inserting new keys keeps exactly the 50 most recent, in insertion order: eviction is FIFO |
| CompletionCache.StoreThenLookup | ai_completion_engine.py:144-146 | a stored entry is found by a later lookup until it is evicted |
| CompletionCache.AppendFresh | ai_completion_engine.py:190 | appending a key not held keeps the order free of repeats and in step with the map |
| Engine.ApiKeyValid | ai_completion_engine.py:45-48 | the key is refused exactly when it is missing, empty or the placeholder |
| Engine.Squeeze | ai_completion_engine.py:81 | the result holds no space and no newline |
| Engine.CacheKeyPieces | ai_completion_engine.py:80-81 | the key is `before[-100:]`, the line and `after[:50]`, each without spaces or newlines |
| Engine.CacheKeyIgnoresFarContext | ai_completion_engine.py:80 | text more than 100 characters before or 50 after never changes the key |
| Engine.CacheKeyCollides | ai_completion_engine.py:80-81 | windows whose pieces agree once spaces and newlines are removed get the same key |
| Engine.CacheKeyIgnoresLineSpacing | ai_completion_engine.py:81 | the spaces and newlines of the current line never change the key |
| Engine.SqueezeAppend | ai_completion_engine.py:81 | removing spaces and newlines works piece by piece |
| Engine.SqueezeIdempotent | ai_completion_engine.py:81 | squeezing twice is squeezing once |
| Engine.DebouncedCall | ai_completion_engine.py:133-139 | a debounced call returns None, clears both prompt and response, and leaves cache and stamp alone |
| Engine.ProviderAskedOnlyOnMiss | ai_completion_engine.py:137-165 | the model is asked exactly when the debounce passes and the key is not cached; the stamp then moves to now, on a hit too |
| Engine.CacheHitReplays | ai_completion_engine.py:144-146 | a hit returns the stored completion and leaves the cache unchanged |
| Engine.FailedCallKeepsCache | ai_completion_engine.py:184-187 | an empty answer or an exception returns None, records "No completion received" or "ERROR: " + message, and leaves the cache unchanged |
| Engine.AnswerIsCachedForNextCall | ai_completion_engine.py:178-200 | a fresh answer is returned stripped and cached, so the same context asked again later is answered from the cache without the model |
| Engine.CompleteKeepsCacheInvariant | ai_completion_engine.py:189-198 | every call keeps the cache well formed, holding the 50 most recent insertions, with only stripped completions |
| Engine.StoreFreshInvariant | ai_completion_engine.py:190-198 | storing a stripped completion under a new key keeps that invariant |
| Engine.CompletionIsStripped | ai_completion_engine.py:179 | whatever the engine returns has no whitespace at either end |
| Engine.CompletionEngine.constructor | ai_completion_engine.py:24-30 | a new engine has no stamp and an empty cache |
| Engine.CompletionEngine.ShouldDebounce | ai_completion_engine.py:54-66 | true exactly when the call is too soon; the stamp moves to now only otherwise |
| Engine.CompletionEngine.GetCompletion | ai_completion_engine.py:115-207 | the result, cache, stamp, prompt and response records are those of Complete for the call's cache key, and the prompt is recorded only when it is sent |
| Engine.CompletionEngine.Lookup | ai_completion_engine.py:132-146 | the steps of get_completion give Complete's outcome |
| Engine.CompletionEngine.Query | ai_completion_engine.py:151-207 | the prompt is recorded, the reply decides result and response, and a reply with text is cached |
| Engine.CompletionEngine.Remember | ai_completion_engine.py:190-198 | the cache after the assignment and eviction is Store's, and the invariant holds |
| Engine.CompletionEngine.GetStats | ai_completion_engine.py:219-226 | the reported cache size is at most 50, and model, tokens and delay fall back to their defaults |
| Engine.NewEngine | ai_completion_engine.py:42-52 | creating the engine fails exactly when the key is refused |
| Overlap.TrimOverlap | code_editor.py:530-583 | defines the resolver's four strategies; its meaning is stated by Overlap.TrimOverlapDropsThroughFirstMatch |
| Overlap.OverlapEnd | code_editor.py:553-561 | where the shown text starts: after the first case-insensitive occurrence of the word, or 0; never past the completion |
| Context.Extract | code_editor.py:313-364 | defines the window; Context.WindowCutsKeepEverything and Context.CurrentLineIsSlice state what it holds |
| Context.CurrentLine | code_editor.py:322-339 | defines the current line; Context.CurrentLineIsSlice states it as a slice of the widget |
| Controller.Show | code_editor.py:476-528 | showing keeps the widget well formed; Controller.ShowOutcomes, Controller.ShowInsertsAtCursor and Controller.ShowSupersedes state its effect |
| Controller.Accept | code_editor.py:297-311 | accepting keeps the widget well formed; Controller.AcceptPlaced and Controller.ShowThenAccept state its effect |
| Controller.Place | code_editor.py:520-525 | placing keeps the widget well formed; Controller.PlaceAtCursor states where the text goes |
| Controller.Suggestion | code_editor.py:497-511 | defines the trimmed text; Controller.SuggestionUsesTypedWord states it |
| Controller.KeyPress | code_editor.py:189-227 | a key press keeps the widget well formed; Controller.KeyPressRule states its effect |
| Controller.Dismisses | code_editor.py:192-219 | defines the dismissing keys: arrows, single characters, Return, BackSpace, Delete and space |
| Controller.Decide | code_editor.py:366-439 | defines the request gate; Controller.RequestConditions states when it starts a request |
| Controller.LogicalLineEnd | code_editor.py:397-415 | defines the logical line end: the ghost anchor's column when it is on the cursor's line, else the line's length |
| Controller.Deliver | code_editor.py:441-474 | delivering keeps the widget well formed; Editor.BlankReplyShowsNothing states the blank case |
| Engine.Complete | ai_completion_engine.py:115-207 | defines get_completion's outcome; Engine.DebouncedCall, Engine.ProviderAskedOnlyOnMiss, Engine.CacheHitReplays and Engine.CompleteKeepsCacheInvariant state it |
| Engine.Ask | ai_completion_engine.py:148-207 | defines the outcome of a model call; Engine.FailedCallKeepsCache and Engine.AnswerIsCachedForNextCall state it |
| Engine.CacheKey | ai_completion_engine.py:68-87 | defines the key; Engine.CacheKeyPieces and Engine.CacheKeyIgnoresFarContext state it |
| RequestLog.Truncate | code_editor.py:643-655 | defines the shown request; RequestLog.TruncateIsPrefix and RequestLog.TruncateLinesStops state it |
| RequestLog.IsStopLine | code_editor.py:652 | defines a stop line: its lower-case form contains "no explanations" |
| RateLimit.Admits | ai_completion_engine.py:62 | defines the debounce test: a call passes unless it comes less than the delay after the stamp |
| RateLimit.Stamp | ai_completion_engine.py:62-66 | defines the new stamp: now when the call passes, else unchanged; RateLimit.FinalStampIsLastAdmitted states it over a run |
| Strings.Lower | code_editor.py:547 | lowering keeps the length and maps each character |
| Strings.Strip | code_editor.py:491 | `strip()` is empty exactly for blank text, and its ends are not whitespace |
| Strings.StripDropsBlankEnds | code_editor.py:491 | `strip()` keeps a contiguous piece of the text, and every character before it and after it is whitespace |
| Strings.StripIsPiece | code_editor.py:491 | what `strip()` keeps is the piece of the text that starts after the leading whitespace |
| Strings.LeadIsBlank | ai_completion_engine.py:179 | the characters `strip()` drops at the front are whitespace |
| Strings.TailIsBlank | ai_completion_engine.py:179 | the characters `strip()` drops at the back are whitespace |
| Strings.TrimStartSpaces | ai_completion_engine.py:179 | what `lstrip()` drops is whitespace |
| Strings.TrimEndSpaces | ai_completion_engine.py:179 | what `rstrip()` drops is whitespace |
| Strings.StrippedIsFixed | ai_completion_engine.py:179 | `strip()` leaves a string alone exactly when its ends are not whitespace |
| Strings.StripIdempotent | code_editor.py:491 | stripping twice is stripping once |
| Strings.Words | code_editor.py:502 | `split()` gives non-empty tokens that hold no whitespace at all |
| Strings.WordOccurs | code_editor.py:563 | every token of `split()` is a piece of the text |
| Strings.Lines | code_editor.py:645 | `split('\n')` gives at least one piece, none holding a newline |
| Strings.JoinLines | code_editor.py:645-655 | joining the pieces of `split('\n')` gives the text back |
| Strings.LinesOfJoin | code_editor.py:655 | splitting a join of newline-free lines gives them back |
| Strings.LineOccurs | code_editor.py:645 | every line is a piece of the text |
| Strings.IndexOf | code_editor.py:557 | `find` gives the lowest offset of an occurrence, or none at all |
| Strings.ContainsIsFound | code_editor.py:556-557 | `in` holds exactly when `find` succeeds |
| Strings.Last | code_editor.py:350 | `s[-n:]` is all of s when it is short, else its last n elements |
| Strings.First | code_editor.py:362 | `s[:n]` is a prefix of s: all of it when it is short, else exactly n elements |

## Left out

- The Tk user interface is not modelled: UI construction, fonts, the menus, scrolling, the line-number widget, the status bar, and the chat pane's text, flash and colour toggling. It is rendering, not pipeline logic.
- File open and save, their dialogs, and the loading of `config.json` are I/O and are not modelled. The configuration is a value whose keys may be missing.
- `threading.Thread` and `root.after` are not modelled as concurrency. A request is started by `RequestAiCompletion` and delivered later by `GetCompletionAsync`, as two sequential calls.
- `Editor.CodeEditor.OnTextChange`: only says whether a request is scheduled. The 300 ms delay of `root.after` is the constant `TriggerDelayMs`, not a timer.
- The OpenAI call is a foreign network call. It becomes the parameter `reply`. The system message, the temperature and the stop sequences are not modelled.
- `time.time()` floats become integer milliseconds passed in. The editor's 0.5 s is 500 ms.
- Lower-casing and whitespace are ASCII. Unicode case folding is not modelled.
- Tk's implicit newline at the end of the text is not modelled.
- `TclError` handling in `clear_ghost_text` is not modelled. On the flat model no index is invalid.
- The `self.client` check in `get_completion` is left out. The client is always set once the engine exists, since a refused key makes creation fail.
- `Engine.CompletionEngine.constructor`: does not check the key itself. `Engine.NewEngine` does, and returns null where the source raises.
- `Engine.CompletionEngine.Lookup`: takes the prompt as a value. `GetCompletion` passes the text `_build_completion_prompt` makes. Building it is pure, so building it before the cache lookup changes nothing. It is recorded only when it is sent.
- `Engine.CompletionIsStripped`: only states that results are stripped. What they are is stated by the other engine lemmas.
- `get_last_chat_info`, `_update_ai_stats` and the status messages are display code. The fields they read are modelled, but the getters and the labels are not.
- `Controller.ShowSupersedes`: covers a suggestion on show only while the cursor is at or before the ghost text. After a navigation key such as End moves the cursor past it, clearing shifts the cursor back, and no lemma states where `Show` then places the new text. `Show` itself follows the code in that case: it inserts at the request's `line.col` in the cleared text.
- Tk's binding order between `<KeyPress>` and `<Tab>` is not modelled. `OnKeyPress` and `OnTabKey` are separate handlers.
- The before and after windows are not claimed to exclude ghost text that spans several lines. The code excludes it only from the current line.
- `launch.py`, `example.py` and the two test scripts are not modelled. They are start-up plumbing, sample text, and scripts that need a live API key.
- Debug prints are not modelled.
