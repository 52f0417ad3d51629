/**
 * The completion engine: debounce, cache lookup, prompt, one call to the
 * language model, cache fill with FIFO eviction. The model's answer is a
 * parameter of the call, so the engine's behaviour is stated for every
 * possible answer.
 */
module Engine {
  import opened Wrappers
  import opened Strings
  import opened RateLimit
  import opened CompletionCache
  import opened Prompt

  const ApiKeyPlaceholder := "your-openai-api-key-here"
  const DefaultModel := "gpt-3.5-turbo"
  const DefaultMaxTokens := 100
  const DefaultDelayMs := 500
  const NoCompletionText := "No completion received"

  /** The keys of config.json the engine reads; a missing key is None. */
  datatype Config = Config(apiKey: Option<string>, model: Option<string>,
                           maxTokens: Option<int>, completionDelayMs: Option<int>)

  /** What the model call produced: some text, nothing (no choices or empty content), or an exception. */
  datatype Reply = Content(text: string) | NoContent | Failure(message: string)

  /** get_stats(). */
  datatype Stats = Stats(cacheSize: nat, model: string, maxTokens: int, completionDelayMs: int)

  /** _setup_openai_client refuses a missing or empty key and the placeholder of the sample config. */
  predicate ApiKeyValid(cfg: Config)
  {
    cfg.apiKey.Some? && cfg.apiKey.value != "" && cfg.apiKey.value != ApiKeyPlaceholder
  }

  function ModelName(cfg: Config): string
  {
    if cfg.model.Some? then cfg.model.value else DefaultModel
  }

  function MaxTokens(cfg: Config): int
  {
    if cfg.maxTokens.Some? then cfg.maxTokens.value else DefaultMaxTokens
  }

  function DelayMs(cfg: Config): int
  {
    if cfg.completionDelayMs.Some? then cfg.completionDelayMs.value else DefaultDelayMs
  }

  // ------------------------------------------------------------- cache key

  /** replace(' ', '') then replace('\n', ''). */
  function Squeeze(s: string): (r: string)
    ensures ' ' !in r && '\n' !in r
  {
    var r1 := Remove(s, ' ');
    RemoveKeepsOther(r1, '\n', ' ');
    Remove(r1, '\n')
  }

  /** _create_cache_key: the last 100 characters before, the line, the first 50 after, without spaces or newlines. */
  function CacheKey(before: string, after: string, line: string): string
  {
    Squeeze(Last(before, 100) + line + First(after, 50))
  }

  lemma {:induction false} SqueezeAppend(a: string, b: string)
    ensures Squeeze(a + b) == Squeeze(a) + Squeeze(b)
  {
    RemoveAppend(a, b, ' ');
    RemoveAppend(Remove(a, ' '), Remove(b, ' '), '\n');
  }

  /** The key is the three windows squeezed one by one, and holds no space or newline. */
  lemma CacheKeyPieces(before: string, after: string, line: string)
    ensures CacheKey(before, after, line)
         == Squeeze(Last(before, 100)) + Squeeze(line) + Squeeze(First(after, 50))
    ensures ' ' !in CacheKey(before, after, line) && '\n' !in CacheKey(before, after, line)
  {
    SqueezeAppend(Last(before, 100) + line, First(after, 50));
    SqueezeAppend(Last(before, 100), line);
  }

  /** Text more than 100 characters before the line, or more than 50 after it, never changes the key. */
  lemma CacheKeyIgnoresFarContext(x: string, before: string, after: string, y: string, line: string)
    requires |before| >= 100 && |after| >= 50
    ensures CacheKey(x + before, after + y, line) == CacheKey(before, after, line)
  {
    var xb, ay := x + before, after + y;
    assert xb[|xb| - 100..] == before[|before| - 100..];
    assert ay[..50] == after[..50];
    assert Last(xb, 100) + line + First(ay, 50) == Last(before, 100) + line + First(after, 50);
  }

  /** Squeezing a squeezed string changes nothing. */
  lemma SqueezeIdempotent(s: string)
    ensures Squeeze(Squeeze(s)) == Squeeze(s)
  {
    var q := Squeeze(s);
    RemoveAbsent(q, ' ');
    RemoveAbsent(q, '\n');
  }

  /**
   * Windows whose three pieces agree once spaces and newlines are removed
   * get the same key, so the key cannot tell them apart.
   */
  lemma CacheKeyCollides(b1: string, a1: string, l1: string, b2: string, a2: string, l2: string)
    requires Squeeze(Last(b1, 100)) == Squeeze(Last(b2, 100))
    requires Squeeze(l1) == Squeeze(l2)
    requires Squeeze(First(a1, 50)) == Squeeze(First(a2, 50))
    ensures CacheKey(b1, a1, l1) == CacheKey(b2, a2, l2)
  {
    CacheKeyPieces(b1, a1, l1);
    CacheKeyPieces(b2, a2, l2);
  }

  /** The spaces and newlines of the current line never matter to the key. */
  lemma CacheKeyIgnoresLineSpacing(before: string, after: string, line: string)
    ensures CacheKey(before, after, Squeeze(line)) == CacheKey(before, after, line)
  {
    SqueezeIdempotent(line);
    CacheKeyCollides(before, after, Squeeze(line), before, after, line);
  }

  // --------------------------------------------------------- get_completion

  /** Every cached completion is already stripped. */
  predicate StrippedValues(c: Cache)
  {
    forall k :: k in c.entries ==> Stripped(c.entries[k])
  }

  /**
   * The engine's state after one get_completion call and what the call
   * returned; asked says whether the prompt went to the model (it is then
   * kept as last_request_prompt).
   */
  datatype Step = Step(completion: Option<string>, cache: Cache, lastRequestTime: int,
                       asked: bool, response: Option<string>)

  /**
   * get_completion from the state (cache, last): prompt and response are
   * reset first; a debounced call stops there; a cached key answers
   * without the model; otherwise the prompt is sent and the reply decides.
   */
  function Complete(cfg: Config, cache: Cache, last: int, key: string,
                    now: int, reply: Reply): Step
    requires Valid(cache)
  {
    if !Admits(last, now, DelayMs(cfg)) then Step(None, cache, last, false, None)
    else
      if key in cache.entries then Step(Some(cache.entries[key]), cache, now, false, None)
      else Ask(cache, key, now, reply)
  }

  /** The part of get_completion after the prompt is sent: the reply decides what is returned, recorded and cached. */
  function Ask(cache: Cache, key: string, now: int, reply: Reply): Step
    requires Valid(cache)
  {
    match reply
    case Content(text) =>
      if text == "" then Step(None, cache, now, true, Some(NoCompletionText))
      else
        var completion := Strip(text);
        Step(Some(completion), Store(cache, key, completion), now, true, Some(completion))
    case NoContent => Step(None, cache, now, true, Some(NoCompletionText))
    case Failure(msg) => Step(None, cache, now, true, Some("ERROR: " + msg))
  }

  /** A debounced call returns None, clears the chat record, and touches neither the cache nor the stamp. */
  lemma DebouncedCall(cfg: Config, cache: Cache, last: int, key: string,
                      now: int, reply: Reply)
    requires Valid(cache) && now - last < DelayMs(cfg)
    ensures Complete(cfg, cache, last, key, now, reply)
         == Step(None, cache, last, false, None)
  {
  }

  /**
   * The model is asked exactly when the call passes the debounce and its
   * key is not cached; whatever the call, it passes the debounce and then
   * moves the stamp to now, a cache hit included.
   */
  lemma ProviderAskedOnlyOnMiss(cfg: Config, cache: Cache, last: int, key: string, now: int, reply: Reply)
    requires Valid(cache)
    ensures var s := Complete(cfg, cache, last, key, now, reply);
            (s.asked <==> Admits(last, now, DelayMs(cfg)) && key !in cache.entries) &&
            s.lastRequestTime == Stamp(last, now, DelayMs(cfg))
  {
  }

  /** A call that is answered from the cache returns the stored completion and leaves the cache as it was. */
  lemma CacheHitReplays(cfg: Config, cache: Cache, last: int, key: string,
                        now: int, reply: Reply)
    requires Valid(cache) && Admits(last, now, DelayMs(cfg))
    requires key in cache.entries
    ensures var s := Complete(cfg, cache, last, key, now, reply);
            s.completion == Some(cache.entries[key]) && s.cache == cache
  {
  }

  /** An empty answer or an exception returns None, records why, and leaves the cache as it was. */
  lemma FailedCallKeepsCache(cfg: Config, cache: Cache, last: int, key: string, now: int, reply: Reply)
    requires Valid(cache) && Admits(last, now, DelayMs(cfg))
    requires key !in cache.entries
    requires reply == NoContent || reply == Content("") || reply.Failure?
    ensures var s := Complete(cfg, cache, last, key, now, reply);
            s.completion == None && s.cache == cache &&
            s.response == Some(if reply.Failure? then "ERROR: " + reply.message else NoCompletionText)
  {
  }

  /**
   * A fresh answer is returned stripped and cached under the call's key,
   * so the same context asked again once the delay has passed is answered
   * from the cache, with the same completion and without the model.
   */
  lemma AnswerIsCachedForNextCall(cfg: Config, cache: Cache, last: int, key: string, now: int, text: string, later: int, reply2: Reply)
    requires Valid(cache) && Admits(last, now, DelayMs(cfg)) && text != ""
    requires key !in cache.entries
    requires Admits(now, later, DelayMs(cfg))
    ensures var s := Complete(cfg, cache, last, key, now, Content(text));
            var s2 := Complete(cfg, s.cache, s.lastRequestTime, key, later, reply2);
            s.completion == Some(Strip(text)) && s.response == Some(Strip(text)) &&
            s2.completion == s.completion && !s2.asked && s2.cache == s.cache
  {
  }

  /** The cache stays well formed, FIFO over the keys inserted so far, and holds only stripped completions. */
  lemma CompleteKeepsCacheInvariant(cfg: Config, cache: Cache, inserted: seq<string>, last: int,
                                    key: string, now: int, reply: Reply)
    requires Valid(cache) && cache.order == Last(inserted, MaxEntries) && StrippedValues(cache)
    ensures var s := Complete(cfg, cache, last, key, now, reply);
            var ins := NewlyInserted(cfg, cache, inserted, last, key, now, reply);
            Valid(s.cache) && s.cache.order == Last(ins, MaxEntries) && StrippedValues(s.cache)
  {
    if Admits(last, now, DelayMs(cfg)) && key !in cache.entries && reply.Content? && reply.text != "" {
      var c := Strip(reply.text);
      StoreFreshInvariant(cache, inserted, key, c);
      assert Complete(cfg, cache, last, key, now, reply).cache == Store(cache, key, c);
    }
  }

  /** Storing a stripped completion under a new key keeps the cache invariant. */
  lemma StoreFreshInvariant(cache: Cache, inserted: seq<string>, key: string, c: string)
    requires Valid(cache) && cache.order == Last(inserted, MaxEntries) && StrippedValues(cache)
    requires key !in cache.entries && Stripped(c)
    ensures var r := Store(cache, key, c);
            Valid(r) && r.order == Last(inserted + [key], MaxEntries) && StrippedValues(r)
  {
    StoreFreshKeepsRecent(cache, inserted, key, c);
    StoreKeys(cache, key, c);
    var r := Store(cache, key, c);
    forall k | k in r.entries
      ensures Stripped(r.entries[k])
    {
      if k != key {
        assert r.entries[k] == cache.entries[k];
      }
    }
  }

  /** The record of inserted keys after a call: the key is appended when the call filled the cache. */
  ghost function NewlyInserted(cfg: Config, cache: Cache, inserted: seq<string>, last: int,
                               key: string, now: int, reply: Reply): seq<string>
  {
    if Admits(last, now, DelayMs(cfg)) && key !in cache.entries && reply.Content? && reply.text != ""
    then inserted + [key] else inserted
  }

  /** Whatever the engine returns has no leading or trailing whitespace, so stripping it again changes nothing. */
  lemma CompletionIsStripped(cfg: Config, cache: Cache, last: int, key: string, now: int, reply: Reply)
    requires Valid(cache) && StrippedValues(cache)
    ensures var s := Complete(cfg, cache, last, key, now, reply);
            s.completion.Some? ==> Stripped(s.completion.value)
  {
  }

  // ------------------------------------------------------------ the class

  class CompletionEngine {
    const config: Config
    var lastRequestTime: int
    var cache: Cache
    var lastRequestPrompt: Option<string>
    var lastResponse: Option<string>
    /** The keys stored so far, oldest first; a key evicted and stored again appears twice. */
    ghost var inserted: seq<string>

    ghost predicate Valid()
      reads this`cache, this`inserted
    {
      CompletionCache.Valid(cache) && cache.order == Last(inserted, MaxEntries) && StrippedValues(cache)
    }

    /** __init__ once the configuration is loaded and the key accepted (NewEngine checks it): no request yet, an empty cache. */
    constructor (cfg: Config)
      ensures Valid()
      ensures config == cfg && lastRequestTime == 0 && cache == Empty()
      ensures lastRequestPrompt == None && lastResponse == None && inserted == []
    {
      config := cfg;
      lastRequestTime := 0;
      cache := Empty();
      lastRequestPrompt := None;
      lastResponse := None;
      inserted := [];
    }

    /** _should_debounce: true when the call comes too soon; otherwise the stamp moves to now. */
    method ShouldDebounce(now: int) returns (debounce: bool)
      modifies this`lastRequestTime
      ensures debounce == !Admits(old(lastRequestTime), now, DelayMs(config))
      ensures lastRequestTime == Stamp(old(lastRequestTime), now, DelayMs(config))
    {
      var delay := DelayMs(config);
      if now - lastRequestTime < delay {
        return true;
      }
      lastRequestTime := now;
      return false;
    }

    /** get_completion at time now, the model answering reply if it is asked. */
    method GetCompletion(before: string, line: string, after: string, now: int, reply: Reply)
      returns (completion: Option<string>)
      requires Valid()
      modifies this
      ensures Valid()
      ensures var s := Complete(config, old(cache), old(lastRequestTime), CacheKey(before, after, line), now, reply);
              completion == s.completion && cache == s.cache && lastRequestTime == s.lastRequestTime &&
              lastRequestPrompt == (if s.asked then Some(BuildPrompt(before, line, after)) else None) &&
              lastResponse == s.response
      ensures inserted == NewlyInserted(config, old(cache), old(inserted), old(lastRequestTime),
                                        CacheKey(before, after, line), now, reply)
    {
      var key := CacheKey(before, after, line);
      completion := Lookup(key, BuildPrompt(before, line, after), now, reply);
    }

    /**
     * The steps of get_completion for the call's cache key; prompt is the
     * text _build_completion_prompt makes, recorded only when it is sent.
     */
    method Lookup(key: string, prompt: string, now: int, reply: Reply) returns (completion: Option<string>)
      requires Valid()
      modifies this
      ensures Valid()
      ensures var s := Complete(config, old(cache), old(lastRequestTime), key, now, reply);
              completion == s.completion && cache == s.cache && lastRequestTime == s.lastRequestTime &&
              lastRequestPrompt == (if s.asked then Some(prompt) else None) &&
              lastResponse == s.response
      ensures inserted == NewlyInserted(config, old(cache), old(inserted), old(lastRequestTime), key, now, reply)
    {
      lastRequestPrompt := None;
      lastResponse := None;
      var debounce := ShouldDebounce(now);
      if debounce {
        return None;
      }
      if key in cache.entries {
        return Some(cache.entries[key]);
      }
      completion := Query(key, prompt, now, reply);
    }

    /** The prompt is recorded and sent for a key not cached; the reply is recorded and, when it has text, cached. */
    method Query(key: string, prompt: string, now: int, reply: Reply) returns (completion: Option<string>)
      requires Valid() && key !in cache.entries
      modifies this`lastRequestPrompt, this`lastResponse, this`cache, this`inserted
      ensures Valid()
      ensures var s := Ask(old(cache), key, now, reply);
              completion == s.completion && cache == s.cache && lastResponse == s.response &&
              lastRequestPrompt == Some(prompt)
      ensures inserted == if reply.Content? && reply.text != "" then old(inserted) + [key] else old(inserted)
    {
      lastRequestPrompt := Some(prompt);
      match reply {
        case Content(text) =>
          if text == "" {
            lastResponse := Some(NoCompletionText);
            return None;
          }
          var c := Strip(text);
          lastResponse := Some(c);
          Remember(key, c);
          return Some(c);
        case NoContent =>
          lastResponse := Some(NoCompletionText);
          return None;
        case Failure(msg) =>
          lastResponse := Some("ERROR: " + msg);
          return None;
      }
    }

    /** `cache[cache_key] = completion` for a key not cached yet, with the eviction that follows. */
    method Remember(key: string, c: string)
      requires Valid() && key !in cache.entries && Stripped(c)
      modifies this`cache, this`inserted
      ensures Valid() && cache == Store(old(cache), key, c) && inserted == old(inserted) + [key]
    {
      StoreFreshInvariant(cache, inserted, key, c);
      cache := Store(cache, key, c);
      inserted := inserted + [key];
    }

    /** get_stats: the cache never reports more than 50 entries. */
    function GetStats(): (st: Stats)
      reads this
      requires Valid()
      ensures st.cacheSize == |cache.entries| <= MaxEntries
      ensures st.model == ModelName(config) && st.maxTokens == MaxTokens(config)
      ensures st.completionDelayMs == DelayMs(config)
    {
      CacheSize(cache);
      Stats(|cache.entries|, ModelName(config), MaxTokens(config), DelayMs(config))
    }
  }

  /** Creating the engine fails, as the constructor's exception does, exactly when the key is refused. */
  method NewEngine(cfg: Config) returns (e: CompletionEngine?)
    ensures e != null <==> ApiKeyValid(cfg)
    ensures e != null ==> fresh(e) && e.Valid() && e.config == cfg && e.cache == Empty() && e.lastRequestTime == 0
  {
    if cfg.apiKey.None? || cfg.apiKey.value == "" || cfg.apiKey.value == ApiKeyPlaceholder {
      return null;
    }
    e := new CompletionEngine(cfg);
  }
}
