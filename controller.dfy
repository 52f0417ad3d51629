/**
 * The ghost-text lifecycle of the editor, on values: the widget, the
 * suggestion on show (current_completion) and where it was inserted
 * (ghost_text_start_pos). Each editor step is a function of this state;
 * the editor class runs them in place.
 */
module Controller {
  import opened Wrappers
  import opened Strings
  import opened Position
  import opened Widget
  import opened Context
  import opened Overlap
  import opened RateLimit

  /** request_ai_completion refuses a second request within 0.5 s. */
  const RequestDelayMs := 500
  /** on_text_change asks for a completion 300 ms after the key is released. */
  const TriggerDelayMs := 300

  /** The widget, current_completion ("" for none) and ghost_text_start_pos (None for none). */
  datatype GhostState = GhostState(buf: Buffer, completion: string, anchor: Option<Pos>)

  /** `ghost_text_start_pos and current_completion`: a suggestion is on show. */
  predicate Active(s: GhostState)
  {
    s.anchor.Some? && s.completion != ""
  }

  /** The state the editor keeps: a well-formed widget, and an anchor exactly when there is a suggestion. */
  predicate Coherent(s: GhostState)
  {
    Valid(s.buf) && (s.anchor.Some? <==> s.completion != "")
  }

  /** The offset of ghost_text_start_pos in the current text. */
  function GhostStart(s: GhostState): nat
    requires Active(s)
  {
    OffsetOf(s.buf.text, s.anchor.value)
  }

  /** "start+Nc" for N the length of the suggestion. */
  function GhostEnd(s: GhostState): nat
    requires Valid(s.buf) && Active(s)
  {
    Forward(s.buf.text, GhostStart(s), |s.completion|)
  }

  // ---------------------------------------------------------- clear, accept

  /**
   * clear_ghost_text: the span is deleted only while it still starts with
   * a tagged character and reads as the suggestion; the suggestion is
   * forgotten either way.
   */
  function Clear(s: GhostState): (r: GhostState)
    requires Valid(s.buf)
    ensures Valid(r.buf)
  {
    if !Active(s) then s
    else
      var st, en := GhostStart(s), GhostEnd(s);
      var buf := if HasGhostTag(s.buf, st) && Get(s.buf, st, en) == s.completion then Delete(s.buf, st, en)
                 else s.buf;
      GhostState(buf, "", None)
  }

  /** accept_completion: the span loses the tag, the cursor goes to its end, the suggestion is forgotten. */
  function Accept(s: GhostState): (r: GhostState)
    requires Valid(s.buf)
    ensures Valid(r.buf)
  {
    if !Active(s) then s
    else
      var st, en := GhostStart(s), GhostEnd(s);
      GhostState(MoveCursor(Untag(s.buf, st, en), en), "", None)
  }

  // -------------------------------------------------------------------- show

  /**
   * What _show_completion would insert for the stripped completion c at
   * the index at: c less the overlap with the last word typed on at's line.
   */
  function Suggestion(b: Buffer, c: string, at: Pos): string
    requires Valid(b)
  {
    var typed := Get(b, Resolve(b.text, at.line, 0), OffsetOf(b.text, at));
    TrimOverlap(LastWord(typed), c)
  }

  /**
   * _show_completion(completion, at): nothing when the cursor has left at;
   * otherwise the old suggestion is cleared and, unless nothing is left
   * once stripped and trimmed, the rest is inserted as ghost text at at
   * with the cursor kept at at.
   */
  function Show(s: GhostState, completion: string, at: Pos): (r: GhostState)
    requires Valid(s.buf)
    ensures Valid(r.buf)
  {
    if InsertPos(s.buf) != at then s
    else
      var s1 := Clear(s);
      var c := Strip(completion);
      if c == "" then s1
      else
        var trimmed := Suggestion(s1.buf, c, at);
        if trimmed == "" then s1
        else
          GhostState(Place(s1.buf, at, trimmed), trimmed, Some(at))
  }

  /** insert(at, x, "ghost_text") then mark_set(INSERT, at), at resolved before and after the insertion. */
  function Place(b: Buffer, at: Pos, x: string): (r: Buffer)
    requires Valid(b)
    ensures Valid(r)
  {
    var b2 := InsertGhost(b, OffsetOf(b.text, at), x);
    MoveCursor(b2, OffsetOf(b2.text, at))
  }

  /** The UI half of _get_completion_async: a completion that is not blank is shown at at. */
  function Deliver(s: GhostState, completion: Option<string>, at: Pos): (r: GhostState)
    requires Valid(s.buf)
    ensures Valid(r.buf)
  {
    if completion.Some? && Strip(completion.value) != "" then Show(s, completion.value, at) else s
  }

  // -------------------------------------------------------------------- gate

  /** What request_ai_completion does: return early for one of four reasons, or start a request. */
  datatype Gate = Unavailable | TooSoon | BlankLine | MidLine
                | Request(before: string, line: string, after: string, at: Pos)

  /** The gate's outcome and the new last_completion_request. */
  datatype Trigger = Trigger(gate: Gate, lastRequest: int)

  /** The column taken as the end of the cursor's line: the ghost anchor when it is on that line, else the line's end. */
  function LogicalLineEnd(s: GhostState): nat
    requires Valid(s.buf)
  {
    var cur := InsertPos(s.buf);
    if s.anchor.Some? && s.anchor.value.line == cur.line then s.anchor.value.col
    else |LineAt(Lines(s.buf.text), cur.line)|
  }

  /**
   * request_ai_completion at time now (ms). The time is recorded as soon
   * as the debounce passes, before the blank-line and end-of-line checks.
   */
  function Decide(s: GhostState, enabled: bool, hasEngine: bool, last: int, now: int): (r: Trigger)
    requires Valid(s.buf)
  {
    if !hasEngine || !enabled then Trigger(Unavailable, last)
    else if now - last < RequestDelayMs then Trigger(TooSoon, last)
    else Trigger(ContentGate(s), now)
  }

  /** The checks request_ai_completion makes once the debounce has passed and the time is recorded. */
  function ContentGate(s: GhostState): (g: Gate)
    requires Valid(s.buf)
    ensures g != Unavailable && g != TooSoon
  {
    var cur := InsertPos(s.buf);
    var w := Extract(Lines(s.buf.text), cur, s.anchor);
    if Strip(w.line) == "" then BlankLine
    else if cur.col < LogicalLineEnd(s) - 1 then MidLine
    else Request(w.before, w.line, w.after, cur)
  }

  // -------------------------------------------------------------------- keys

  const ArrowKeys: set<string> := {"Up", "Down", "Left", "Right"}
  const ContentKeys: set<string> := {"Return", "BackSpace", "Delete", "space"}
  const NavigationKeys: set<string> :=
    {"Home", "End", "Page_Up", "Page_Down", "Control_L", "Control_R", "Shift_L", "Shift_R", "Alt_L", "Alt_R",
     "Escape", "Tab", "Caps_Lock", "Num_Lock", "Scroll_Lock",
     "F1", "F2", "F3", "F4", "F5", "F6", "F7", "F8", "F9", "F10", "F11", "F12"}
  /** Keys whose release never asks for a completion. */
  const IgnoredKeys: set<string> := {"Up", "Down", "Left", "Right", "Tab"}

  /** on_key_press for the key with keysym key, before Tk applies it. */
  function KeyPress(s: GhostState, key: string): (r: GhostState)
    requires Valid(s.buf)
    ensures Valid(r.buf)
  {
    var isContent := |key| == 1 || key in ContentKeys;
    var s1 := if key in ArrowKeys && Active(s) then Clear(s) else s;
    var isContent' := if key in ArrowKeys then isContent else if key in NavigationKeys then false else isContent;
    if isContent' && Active(s1) then Clear(s1) else s1
  }

  /** The keys whose press dismisses a suggestion: arrows, single characters, Return, BackSpace, Delete, space. */
  predicate Dismisses(key: string)
  {
    key in ArrowKeys || |key| == 1 || key in ContentKeys
  }

  /** on_text_change: a request is scheduled on the release of any key but the arrows and Tab, while AI is on and there is an engine. */
  predicate SchedulesOnRelease(enabled: bool, hasEngine: bool, key: string)
  {
    enabled && hasEngine && key !in IgnoredKeys
  }

  // -------------------------------------------------------------- properties

  /** Clearing forgets the suggestion; when one was on show, the text loses at most that suggestion, at its anchor. */
  lemma ClearRemovesOnlyGhostText(s: GhostState)
    requires Valid(s.buf)
    ensures !Active(s) ==> Clear(s) == s
    ensures Active(s) ==> Clear(s).completion == "" && Clear(s).anchor == None
    ensures Active(s) ==>
              (Clear(s).buf == s.buf ||
               (HasGhostTag(s.buf, GhostStart(s)) &&
                s.buf.text == Clear(s).buf.text[..GhostStart(s)] + s.completion + Clear(s).buf.text[GhostStart(s)..]))
  {
    if Active(s) {
      var st, en := GhostStart(s), GhostEnd(s);
      var t := s.buf.text;
      if HasGhostTag(s.buf, st) && Get(s.buf, st, en) == s.completion {
        var u := Clear(s).buf.text;
        assert u == t[..st] + t[en..];
        assert u[..st] == t[..st] && u[st..] == t[en..];
        assert t == t[..st] + t[st..en] + t[en..];
      }
    }
  }

  /** Clearing twice is clearing once. */
  lemma ClearIdempotent(s: GhostState)
    requires Valid(s.buf)
    ensures Clear(Clear(s)) == Clear(s)
  {
  }

  /** Every step keeps an anchor exactly when there is a suggestion. */
  lemma StepsKeepCoherence(s: GhostState, completion: string, at: Pos, key: string)
    requires Coherent(s)
    ensures Coherent(Clear(s)) && Coherent(Accept(s)) && Coherent(Show(s, completion, at))
    ensures Coherent(KeyPress(s, key))
  {
  }

  /** A key press clears the suggestion exactly for the dismissing keys; the navigation and modifier keys keep it. */
  lemma KeyPressRule(s: GhostState, key: string)
    requires Valid(s.buf)
    ensures KeyPress(s, key) == if Dismisses(key) then Clear(s) else s
    ensures key in NavigationKeys ==> KeyPress(s, key) == s
  {
    if key in NavigationKeys {
      assert |key| > 1 && key !in ContentKeys && key !in ArrowKeys;
    }
  }

  /** A completion for an index the cursor has left changes nothing; one that trims to nothing only clears. */
  lemma ShowOutcomes(s: GhostState, completion: string, at: Pos)
    requires Valid(s.buf)
    ensures InsertPos(s.buf) != at ==> Show(s, completion, at) == s
    ensures InsertPos(s.buf) == at && Suggestion(Clear(s).buf, Strip(completion), at) == "" ==>
              Show(s, completion, at) == Clear(s)
  {
    var c := Strip(completion);
    TrimOverlapIsSuffix(LastWord(Get(Clear(s).buf, Resolve(Clear(s).buf.text, at.line, 0),
                                     OffsetOf(Clear(s).buf.text, at))), c);
  }

  /** Ghost text placed at the cursor's own index goes right after the cursor, tagged, and the cursor stays. */
  lemma PlaceAtCursor(b: Buffer, x: string)
    requires Valid(b)
    ensures var c, t, g := b.cursor, b.text, b.tagged;
            Place(b, InsertPos(b), x) == Buffer(t[..c] + x + t[c..], g[..c] + seq(|x|, _ => true) + g[c..], c)
  {
    var c, t := b.cursor, b.text;
    PosRoundTrip(t, c);
    EndPosResolves(t[..c], x + t[c..]);
    assert t[..c] + x + t[c..] == t[..c] + (x + t[c..]);
  }

  /** The word the completion is trimmed against is the last word of the line up to the cursor. */
  lemma SuggestionUsesTypedWord(b: Buffer, c: string)
    requires Valid(b)
    ensures Suggestion(b, c, InsertPos(b)) == TrimOverlap(LastWord(Extract(Lines(b.text), InsertPos(b), None).line), c)
    ensures |Suggestion(b, c, InsertPos(b))| <= |c|
  {
    PosRoundTrip(b.text, b.cursor);
    CurrentLineIsSlice(b, None);
    TrimOverlapIsSuffix(LastWord(Extract(Lines(b.text), InsertPos(b), None).line), c);
  }

  /** With no suggestion on show and the cursor still at at, Show places the trimmed completion, if any is left. */
  lemma ShowWhenIdle(s: GhostState, completion: string, at: Pos)
    requires Coherent(s) && !Active(s) && InsertPos(s.buf) == at
    ensures var trimmed := Suggestion(s.buf, Strip(completion), at);
            Show(s, completion, at) == if trimmed == "" then s else GhostState(Place(s.buf, at, trimmed), trimmed, Some(at))
  {
    SuggestionUsesTypedWord(s.buf, Strip(completion));
  }

  /**
   * With no suggestion on show and the cursor still at at, the text
   * trimmed is the stripped completion less its overlap with the last word
   * of the line up to the cursor, and it is inserted, tagged, right after
   * the cursor, which stays where it was.
   */
  lemma ShowInsertsAtCursor(s: GhostState, completion: string, at: Pos)
    requires Coherent(s) && !Active(s) && InsertPos(s.buf) == at
    ensures var c, t, g := s.buf.cursor, s.buf.text, s.buf.tagged;
            var trimmed := Suggestion(s.buf, Strip(completion), at);
            && trimmed == TrimOverlap(LastWord(Extract(Lines(t), at, None).line), Strip(completion))
            && Show(s, completion, at) ==
                 if trimmed == "" then s
                 else GhostState(Buffer(t[..c] + trimmed + t[c..], g[..c] + seq(|trimmed|, _ => true) + g[c..], c),
                                 trimmed, Some(at))
  {
    SuggestionUsesTypedWord(s.buf, Strip(completion));
    ShowWhenIdle(s, completion, at);
    PlaceAtCursor(s.buf, Suggestion(s.buf, Strip(completion), at));
  }

  /**
   * A new suggestion replaces one on show: while the cursor is at or before
   * the ghost text, clearing leaves it at the same index, so showing over a
   * suggestion is showing over the cleared state, which the lemmas above
   * describe.
   */
  lemma ShowSupersedes(s: GhostState, completion: string, at: Pos)
    requires Coherent(s) && Active(s) && InsertPos(s.buf) == at && s.buf.cursor <= GhostStart(s)
    ensures Coherent(Clear(s)) && !Active(Clear(s)) && InsertPos(Clear(s).buf) == at
    ensures Show(s, completion, at) == Show(Clear(s), completion, at)
  {
    var b, b1 := s.buf, Clear(s).buf;
    assert b1.cursor == b.cursor;
    assert b1.text[..b.cursor] == b.text[..b.cursor];
    ClearIdempotent(s);
  }

  /**
   * The press and release rules side by side: with AI on and an engine,
   * every key that keeps the suggestion on press, Tab aside, schedules a new
   * request on release, while an arrow clears the suggestion and schedules
   * nothing; without AI or an engine nothing is scheduled.
   */
  lemma ReleaseAfterPress(enabled: bool, hasEngine: bool, key: string)
    ensures !Dismisses(key) && key != "Tab" ==> SchedulesOnRelease(true, true, key)
    ensures key in ArrowKeys ==> Dismisses(key) && !SchedulesOnRelease(enabled, hasEngine, key)
    ensures SchedulesOnRelease(enabled, hasEngine, key) ==> enabled && hasEngine && key != "Tab"
  {
  }

  /** Shift, Home and End keep a suggestion on show, and their release asks for a new one. */
  lemma ExampleKeptSuggestionIsRefreshed(s: GhostState)
    requires Coherent(s)
    ensures KeyPress(s, "Shift_L") == s && SchedulesOnRelease(true, true, "Shift_L")
    ensures KeyPress(s, "Home") == s && SchedulesOnRelease(true, true, "Home")
    ensures KeyPress(s, "End") == s && SchedulesOnRelease(true, true, "End")
  {
    KeyPressRule(s, "Shift_L");
    KeyPressRule(s, "Home");
    KeyPressRule(s, "End");
  }

  /** Clearing ghost text just placed at the cursor gives the widget back. */
  lemma ClearPlaced(b: Buffer, x: string)
    requires Valid(b) && x != ""
    ensures Clear(GhostState(Place(b, InsertPos(b), x), x, Some(InsertPos(b)))) == GhostState(b, "", None)
  {
    PlaceAtCursor(b, x);
    var c, t, g := b.cursor, b.text, b.tagged;
    var r := GhostState(Place(b, InsertPos(b), x), x, Some(InsertPos(b)));
    PosRoundTrip(t, c);
    EndPosResolves(t[..c], x + t[c..]);
    assert r.buf.text == t[..c] + (x + t[c..]);
    assert GhostStart(r) == c;
    assert GhostEnd(r) == c + |x|;
    assert r.buf.text[c..c + |x|] == x;
    assert HasGhostTag(r.buf, c);
    assert r.buf.text[..c] == t[..c] && r.buf.text[c + |x|..] == t[c..];
    assert r.buf.tagged[..c] == g[..c] && r.buf.tagged[c + |x|..] == g[c..];
    assert t[..c] + t[c..] == t && g[..c] + g[c..] == g;
  }

  /** Accepting ghost text just placed at the cursor keeps the text, drops the tag and moves the cursor past it. */
  lemma AcceptPlaced(b: Buffer, x: string)
    requires Valid(b) && x != ""
    ensures var c, t, g := b.cursor, b.text, b.tagged;
            Accept(GhostState(Place(b, InsertPos(b), x), x, Some(InsertPos(b))))
              == GhostState(Buffer(t[..c] + x + t[c..], g[..c] + seq(|x|, _ => false) + g[c..], c + |x|), "", None)
  {
    PlaceAtCursor(b, x);
    var c, t, g := b.cursor, b.text, b.tagged;
    var r := GhostState(Place(b, InsertPos(b), x), x, Some(InsertPos(b)));
    PosRoundTrip(t, c);
    EndPosResolves(t[..c], x + t[c..]);
    assert r.buf.text == t[..c] + (x + t[c..]);
    assert GhostStart(r) == c;
    assert GhostEnd(r) == c + |x|;
    assert r.buf.tagged[..c] == g[..c] && r.buf.tagged[c + |x|..] == g[c..];
  }

  /** A suggestion shown and then cleared leaves the widget as it was. */
  lemma ShowThenClear(s: GhostState, completion: string, at: Pos)
    requires Coherent(s) && !Active(s) && InsertPos(s.buf) == at
    ensures Clear(Show(s, completion, at)) == s
  {
    ShowWhenIdle(s, completion, at);
    var trimmed := Suggestion(s.buf, Strip(completion), at);
    if trimmed != "" {
      ClearPlaced(s.buf, trimmed);
    }
  }

  /**
   * A suggestion shown and then accepted becomes ordinary text right
   * after the old cursor, the cursor moves to its end and nothing else of
   * the text or its tags changes.
   */
  lemma ShowThenAccept(s: GhostState, completion: string, at: Pos)
    requires Coherent(s) && !Active(s) && InsertPos(s.buf) == at
    ensures var c, t, g := s.buf.cursor, s.buf.text, s.buf.tagged;
            var trimmed := Suggestion(s.buf, Strip(completion), at);
            var r := Accept(Show(s, completion, at));
            && !Active(r)
            && r.buf.text == t[..c] + trimmed + t[c..]
            && r.buf.cursor == c + |trimmed|
            && r.buf.tagged == g[..c] + seq(|trimmed|, _ => false) + g[c..]
  {
    ShowWhenIdle(s, completion, at);
    var c, t, g := s.buf.cursor, s.buf.text, s.buf.tagged;
    var trimmed := Suggestion(s.buf, Strip(completion), at);
    if trimmed == "" {
      InsertNothing(t, c, trimmed);
      InsertNothing(g, c, seq(|trimmed|, _ => false));
    } else {
      AcceptPlaced(s.buf, trimmed);
    }
  }

  /**
   * While a suggestion is on show at the cursor, the line sent with the
   * next request is the line as typed: the ghost text is not part of it.
   */
  lemma PlacedLineExcludesGhostText(b: Buffer, x: string)
    requires Valid(b) && x != ""
    ensures var b2 := Place(b, InsertPos(b), x);
            Extract(Lines(b2.text), InsertPos(b2), Some(InsertPos(b))).line
              == Extract(Lines(b.text), InsertPos(b), None).line
  {
    PlaceAtCursor(b, x);
    var c, t := b.cursor, b.text;
    var b2 := Place(b, InsertPos(b), x);
    var t2 := b2.text;
    assert t2 == t[..c] + (x + t[c..]);
    assert t2[..c] == t[..c];
    assert InsertPos(b2) == InsertPos(b);
    CurrentLineIsSlice(b, None);
    CurrentLineIsSlice(b2, Some(InsertPos(b)));
    EndPosResolves(t[..c], x + t[c..]);
    LineStartResolves(t[..c], x + t[c..]);
    LineStartResolves(t[..c], t[c..]);
    InsertNothing(t, c, "");
    assert CurrentLineStart(b2) == CurrentLineStart(b);
    assert CurrentLineStop(b2, Some(InsertPos(b))) == c;
  }

  /** The same, for the state Show leaves. */
  lemma ContextExcludesGhostText(s: GhostState, completion: string, at: Pos)
    requires Coherent(s) && !Active(s) && InsertPos(s.buf) == at
    ensures var r := Show(s, completion, at);
            Extract(Lines(r.buf.text), InsertPos(r.buf), r.anchor).line
              == Extract(Lines(s.buf.text), at, None).line
  {
    ShowWhenIdle(s, completion, at);
    var trimmed := Suggestion(s.buf, Strip(completion), at);
    if trimmed != "" {
      PlacedLineExcludesGhostText(s.buf, trimmed);
    }
  }

  /**
   * A request starts exactly when AI is available, the debounce passes,
   * the line is not blank and the cursor is within one column of the
   * logical line end; it carries the window and the cursor's index.
   */
  lemma RequestConditions(s: GhostState, enabled: bool, hasEngine: bool, last: int, now: int)
    requires Valid(s.buf)
    ensures var r := Decide(s, enabled, hasEngine, last, now);
            var cur := InsertPos(s.buf);
            var w := Extract(Lines(s.buf.text), cur, s.anchor);
            && (r.gate.Request? <==>
                  enabled && hasEngine && Admits(last, now, RequestDelayMs) && !IsBlank(w.line) &&
                  cur.col + 1 >= LogicalLineEnd(s))
            && (r.gate.Request? ==> r.gate == Request(w.before, w.line, w.after, cur))
  {
    if enabled && hasEngine && Admits(last, now, RequestDelayMs) {
      ContentConditions(s);
    }
  }

  /** Once the debounce passes, a request starts exactly for a non-blank line with the cursor at its logical end. */
  lemma ContentConditions(s: GhostState)
    requires Valid(s.buf)
    ensures var cur := InsertPos(s.buf);
            var w := Extract(Lines(s.buf.text), cur, s.anchor);
            && (ContentGate(s).Request? <==> !IsBlank(w.line) && cur.col + 1 >= LogicalLineEnd(s))
            && (ContentGate(s).Request? ==> ContentGate(s) == Request(w.before, w.line, w.after, cur))
  {
    var w := Extract(Lines(s.buf.text), InsertPos(s.buf), s.anchor);
    assert Strip(w.line) == "" <==> IsBlank(w.line);
  }

  /**
   * last_completion_request moves to now whenever the debounce passes,
   * also when the line then turns out blank or the cursor is mid-line.
   */
  lemma StampBeforeContentChecks(s: GhostState, enabled: bool, hasEngine: bool, last: int, now: int)
    requires Valid(s.buf)
    ensures Decide(s, enabled, hasEngine, last, now).lastRequest
         == if enabled && hasEngine then Stamp(last, now, RequestDelayMs) else last
  {
  }

  /** So a second trigger within 0.5 s of a call that passed the debounce is refused, whatever the line. */
  lemma QuickRetriggerRefused(s: GhostState, s2: GhostState, enabled: bool, hasEngine: bool,
                              last: int, t1: int, t2: int)
    requires Valid(s.buf) && Valid(s2.buf)
    requires Decide(s, enabled, hasEngine, last, t1).gate != Unavailable
    requires Decide(s, enabled, hasEngine, last, t1).gate != TooSoon
    requires t2 - t1 < RequestDelayMs
    ensures Decide(s2, enabled, hasEngine, Decide(s, enabled, hasEngine, last, t1).lastRequest, t2).gate == TooSoon
  {
    StampBeforeContentChecks(s, enabled, hasEngine, last, t1);
  }
}
