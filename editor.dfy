/**
 * The editor object: the widget, the suggestion on show and the request
 * bookkeeping, updated in place by the event handlers. Each handler is
 * proved to do what the matching Controller function says.
 */
module Editor {
  import opened Wrappers
  import opened Strings
  import opened Position
  import opened Widget
  import opened Context
  import opened Overlap
  import opened Engine
  import opened Controller
  import opened RateLimit
  import Prompt
  import CompletionCache

  class CodeEditor {
    /** ai_engine: null when the engine could not be created. */
    const engine: CompletionEngine?
    /** The "Enabled" check button. */
    var aiEnabled: bool
    var buf: Buffer
    var currentCompletion: string
    var ghostStart: Option<Pos>
    var lastCompletionRequest: int

    ghost function State(): GhostState
      reads this`buf, this`currentCompletion, this`ghostStart
    {
      GhostState(buf, currentCompletion, ghostStart)
    }

    ghost predicate Valid()
      reads this, engine
    {
      Coherent(State()) && (engine != null ==> engine.Valid())
    }

    /** __init__: the engine is created from the configuration; AI starts enabled exactly when it exists. */
    constructor (cfg: Config)
      ensures Valid()
      ensures (engine != null <==> ApiKeyValid(cfg)) && aiEnabled == (engine != null)
      ensures engine != null ==> fresh(engine) && engine.config == cfg && engine.cache == CompletionCache.Empty()
      ensures State() == GhostState(Buffer("", [], 0), "", None) && lastCompletionRequest == 0
    {
      var e := NewEngine(cfg);
      engine := e;
      aiEnabled := e != null;
      buf := Buffer("", [], 0);
      currentCompletion := "";
      ghostStart := None;
      lastCompletionRequest := 0;
    }

    /** clear_ghost_text. */
    method ClearGhostText()
      requires Valid()
      modifies this`buf, this`currentCompletion, this`ghostStart
      ensures Valid() && State() == Clear(old(State()))
    {
      if ghostStart.Some? && currentCompletion != "" {
        var st := OffsetOf(buf.text, ghostStart.value);
        var en := Forward(buf.text, st, |currentCompletion|);
        var actual := Get(buf, st, en);
        if HasGhostTag(buf, st) && actual == currentCompletion {
          buf := Delete(buf, st, en);
        }
        ghostStart := None;
        currentCompletion := "";
      }
    }

    /** accept_completion. */
    method AcceptCompletion()
      requires Valid()
      modifies this`buf, this`currentCompletion, this`ghostStart
      ensures Valid() && State() == Accept(old(State()))
    {
      if currentCompletion != "" && ghostStart.Some? {
        var st := OffsetOf(buf.text, ghostStart.value);
        var en := Forward(buf.text, st, |currentCompletion|);
        buf := Untag(buf, st, en);
        buf := MoveCursor(buf, en);
        ghostStart := None;
        currentCompletion := "";
      }
    }

    /** _show_completion(completion, at). */
    method ShowCompletion(completion: string, at: Pos)
      requires Valid()
      modifies this`buf, this`currentCompletion, this`ghostStart
      ensures Valid() && State() == Show(old(State()), completion, at)
    {
      if InsertPos(buf) != at {
        return;
      }
      ClearGhostText();
      var c := Strip(completion);
      if c == "" {
        return;
      }
      InsertTrimmed(c, at);
    }

    /** The rest of _show_completion once the old suggestion is cleared, for the stripped completion c. */
    method InsertTrimmed(c: string, at: Pos)
      requires Valid() && State().anchor == None && currentCompletion == ""
      modifies this`buf, this`currentCompletion, this`ghostStart
      ensures Valid()
      ensures var trimmed := Suggestion(old(buf), c, at);
              State() == if trimmed == "" then old(State()) else GhostState(Place(old(buf), at, trimmed), trimmed, Some(at))
    {
      var typed := Get(buf, Resolve(buf.text, at.line, 0), OffsetOf(buf.text, at));
      var words := Words(typed);
      var word := if words == [] then "" else words[|words| - 1];
      var trimmed := TrimCompletionOverlap(word, c);
      if trimmed == "" {
        return;
      }
      buf := InsertGhost(buf, OffsetOf(buf.text, at), trimmed);
      ghostStart := Some(at);
      currentCompletion := trimmed;
      buf := MoveCursor(buf, OffsetOf(buf.text, at));
    }

    /** on_key_press: the dismissing keys clear the suggestion before Tk applies them. */
    method OnKeyPress(key: string)
      requires Valid()
      modifies this`buf, this`currentCompletion, this`ghostStart
      ensures Valid() && State() == KeyPress(old(State()), key)
      ensures State() == if Dismisses(key) then Clear(old(State())) else old(State())
    {
      KeyPressRule(State(), key);
      var isContent := |key| == 1 || key in ContentKeys;
      if key in ArrowKeys {
        if ghostStart.Some? && currentCompletion != "" {
          ClearGhostText();
        }
      } else if key in NavigationKeys {
        isContent := false;
      }
      if isContent && ghostStart.Some? && currentCompletion != "" {
        ClearGhostText();
      }
    }

    /** on_text_change: whether a completion request is scheduled, TriggerDelayMs after the key release. */
    method OnTextChange(key: string) returns (scheduled: bool)
      ensures scheduled == SchedulesOnRelease(aiEnabled, engine != null, key)
      ensures aiEnabled && engine != null && !Dismisses(key) && key != "Tab" ==> scheduled
      ensures key in ArrowKeys || key == "Tab" ==> !scheduled
    {
      scheduled := aiEnabled && engine != null && key !in IgnoredKeys;
      ReleaseAfterPress(aiEnabled, engine != null, key);
    }

    /** on_click. */
    method OnClick()
      requires Valid()
      modifies this`buf, this`currentCompletion, this`ghostStart
      ensures Valid() && State() == Clear(old(State()))
    {
      ClearGhostText();
    }

    /** on_tab_key: true for "break", when there was a suggestion and it was accepted. */
    method OnTabKey() returns (consumed: bool)
      requires Valid()
      modifies this`buf, this`currentCompletion, this`ghostStart
      ensures Valid() && State() == Accept(old(State()))
      ensures consumed <==> Active(old(State()))
    {
      if currentCompletion != "" && ghostStart.Some? {
        AcceptCompletion();
        return true;
      }
      return false;
    }

    /** request_ai_completion at time now (ms): the gate, and the window and index a started request carries. */
    method RequestAiCompletion(now: int) returns (gate: Gate)
      requires Valid()
      modifies this`lastCompletionRequest
      ensures var r := Decide(State(), aiEnabled, engine != null, old(lastCompletionRequest), now);
              gate == r.gate && lastCompletionRequest == r.lastRequest
    {
      if engine == null || !aiEnabled {
        return Unavailable;
      }
      if now - lastCompletionRequest < RequestDelayMs {
        return TooSoon;
      }
      lastCompletionRequest := now;
      assert State() == old(State());
      gate := CheckContent();
    }

    /** The blank-line and end-of-line checks of request_ai_completion, on the window around the cursor. */
    method CheckContent() returns (gate: Gate)
      requires Valid()
      ensures gate == ContentGate(State())
    {
      var before, line, after := GetContextAroundCursor(buf, ghostStart);
      var cur := InsertPos(buf);
      var logicalEnd: int := cur.col;
      if ghostStart.Some? {
        if ghostStart.value.line == cur.line {
          logicalEnd := ghostStart.value.col;
        } else {
          logicalEnd := |LineAt(Lines(buf.text), cur.line)|;
        }
      } else {
        logicalEnd := |LineAt(Lines(buf.text), cur.line)|;
      }
      assert logicalEnd == LogicalLineEnd(State());
      var stripped := Strip(line);
      if |stripped| < 1 {
        return BlankLine;
      }
      if cur.col < logicalEnd - 1 {
        return MidLine;
      }
      return Request(before, line, after, cur);
    }

    /**
     * _get_completion_async for a request made at index at, the engine
     * running at time now and the model answering reply.
     */
    method GetCompletionAsync(before: string, line: string, after: string, at: Pos, now: int, reply: Reply)
      requires Valid()
      modifies this`buf, this`currentCompletion, this`ghostStart, engine
      ensures Valid()
      ensures engine == null ==> State() == old(State())
      ensures engine != null ==>
                var s := Complete(engine.config, old(engine.cache), old(engine.lastRequestTime),
                                  CacheKey(before, after, line), now, reply);
                engine.cache == s.cache && engine.lastRequestTime == s.lastRequestTime &&
                engine.lastRequestPrompt == (if s.asked then Some(Prompt.BuildPrompt(before, line, after)) else None) &&
                engine.lastResponse == s.response &&
                State() == Controller.Deliver(old(State()), s.completion, at)
    {
      if engine == null {
        return;
      }
      var completion := engine.GetCompletion(before, line, after, now, reply);
      if completion.Some? && Strip(completion.value) != "" {
        ShowCompletion(completion.value, at);
      }
    }
  }

  /**
   * A reply that is only whitespace, for a key not yet cached, is cached
   * as an empty completion and shows nothing.
   */
  lemma BlankReplyShowsNothing(cfg: Config, cache: CompletionCache.Cache, last: int, key: string, now: int, text: string,
                               s: GhostState, at: Pos)
    requires CompletionCache.Valid(cache) && Valid(s.buf) && key !in cache.entries
    requires text != "" && IsBlank(text) && Admits(last, now, DelayMs(cfg))
    ensures var r := Complete(cfg, cache, last, key, now, Content(text));
            r.completion == Some("") && r.cache.entries[key] == "" &&
            Controller.Deliver(s, r.completion, at) == s
  {
  }
}
