/** The embedding service as a client of the LRU cache: the cached service is compared with
    the same calls made without a cache.
 */
module EmbeddingService {
  import opened Wrappers
  import opened RecencyList
  import opened EmbeddingCache
  import opened CacheKeys
  import opened EmbeddingRequest

  const DEFAULT_BASE_URL := "http://localhost:8000"
  const DEFAULT_MODEL := "text-embedding-3-small"
  const DEFAULT_EXPECTED_DIM: nat := 1536
  const DEFAULT_TIMEOUT_MS: nat := 30_000
  const DEFAULT_MAX_RETRIES: nat := 2

  // ---------- one call ----------

  predicate IsSpace(c: char) {
    c in "\t\n\r " || c as int in {0x0B, 0x0C, 0x85, 0xA0, 0x1680, 0x2028, 0x2029, 0x202F, 0x205F, 0x3000}
    || 0x2000 <= c as int <= 0x200A
  }

  predicate Blank(text: string) {
    forall c :: c in text ==> IsSpace(c)
  }

  /** Only the first vector of an answer is kept. */
  function Unwrapped(e: Embedding): Embedding {
    if |e.vectors| > 0 then e.(vectors := [e.vectors[0]]) else e
  }

  datatype Config = Config(baseUrl: string, defaultModel: string, hash: Hash)

  /** `outcome` is what the retry loop would yield if this call had to make the request. */
  datatype Call = Call(text: string, model: string, outcome: Outcome)

  function EffectiveModel(config: Config, model: string): string {
    if model == "" then config.defaultModel else model
  }

  function KeyOf(config: Config, call: Call): string {
    EmbeddingKey(config.hash, config.baseUrl, EffectiveModel(config, call.model), call.text)
  }

  /** The same call on a service without a cache. */
  function Uncached(call: Call): Outcome {
    if Blank(call.text) then Failed(EmptyText)
    else if call.outcome.Failed? then call.outcome
    else Done(Unwrapped(call.outcome.result))
  }

  /** The call on a service whose cache holds `s`. */
  function Serve(config: Config, capacity: nat, s: Recency<Embedding>, call: Call): (Recency<Embedding>, Outcome)
    requires 0 < capacity
  {
    if Blank(call.text) then (s, Failed(EmptyText))
    else
      var key := KeyOf(config, call);
      var looked := Step(s, capacity, Op.Get(key, 0), NeverStale);
      match looked.1
      case Some(hit) => (looked.0, Done(hit.(cached := true)))
      case None =>
        match call.outcome
        case Failed(e) => (looked.0, Failed(e))
        case Done(result) =>
          var kept := Unwrapped(result).(cached := false);
          (Step(looked.0, capacity, Op.Set(key, kept), NeverStale).0, Done(kept))
  }

  class Service {
    const config: Config
    const expectedDim: nat
    const timeoutMs: nat
    const maxRetries: nat
    const cache: LruCache?<Embedding>

    ghost predicate Valid()
      reads this, cache, if cache == null then {} else cache.Repr
    {
      cache != null ==> cache.Valid()
    }

    /** Zero-valued settings fall back to the defaults. */
    constructor (baseUrl: string, defaultModel: string, expectedDim: int, timeoutMs: int, maxRetries: int, hash: Hash,
                 cacheEnabled: bool, cacheMaxSize: int)
      ensures Valid() && (cache != null <==> cacheEnabled) && config.hash == hash
      ensures config.baseUrl == (if baseUrl == "" then "http://localhost:8000" else baseUrl) && config.baseUrl != ""
      ensures config.defaultModel == (if defaultModel == "" then "text-embedding-3-small" else defaultModel)
                && config.defaultModel != ""
      ensures this.expectedDim == (if expectedDim <= 0 then 1536 else expectedDim)
      ensures this.timeoutMs == (if timeoutMs <= 0 then 30_000 else timeoutMs)
      ensures this.maxRetries == if maxRetries <= 0 then 2 else maxRetries
      ensures cache != null ==> cache.contents == [] && fresh(cache) && fresh(cache.Repr)
    {
      config := Config(
        if baseUrl == "" then DEFAULT_BASE_URL else baseUrl,
        if defaultModel == "" then DEFAULT_MODEL else defaultModel,
        hash);
      this.expectedDim := if expectedDim <= 0 then DEFAULT_EXPECTED_DIM else expectedDim;
      this.timeoutMs := if timeoutMs <= 0 then DEFAULT_TIMEOUT_MS else timeoutMs;
      this.maxRetries := if maxRetries <= 0 then DEFAULT_MAX_RETRIES else maxRetries;
      if cacheEnabled {
        var c := new LruCache<Embedding>(cacheMaxSize);
        cache := c;
      } else {
        cache := null;
      }
    }

    /** This call with the outcome its request has if it is made. */
    function CallOf(text: string, model: string, replies: nat -> Reply, cancelled: nat -> bool): Call {
      Call(text, model, RetryOutcome(Request(maxRetries, expectedDim, replies, cancelled), 0))
    }

    method EmbedText(text: string, model: string, replies: nat -> Reply, cancelled: nat -> bool) returns (r: Outcome)
      requires Valid()
      modifies cache, if cache == null then {} else cache.Repr
      ensures Valid() && (cache != null ==> fresh(cache.Repr - old(cache.Repr)))
      ensures cache == null ==> r == Uncached(CallOf(text, model, replies, cancelled))
      ensures cache != null ==>
                (cache.contents, r) ==
                  Serve(config, cache.maxSize, old(cache.contents), CallOf(text, model, replies, cancelled))
      ensures var q := Request(maxRetries, expectedDim, replies, cancelled);
              match r
              case Failed(EmptyText) => Blank(text)
              case Failed(_) => RetryEnds(q, r)
              case Done(e) =>
                cache == null || !e.cached ==>
                  exists made :: RetryEnds(q, Done(made))
                                 && e.vectors == if made.vectors == [] then [] else [made.vectors[0]]
    {
      if Blank(text) {
        return Failed(EmptyText);
      }
      var effective := EffectiveModel(config, model);
      if cache != null {
        var key := EmbeddingKey(config.hash, config.baseUrl, effective, text);
        var cached := cache.Get(key);
        if cached.Some? {
          return Done(cached.value.(cached := true));
        }
      }
      var outcome := EmbedWithRetry(Request(maxRetries, expectedDim, replies, cancelled));
      if outcome.Failed? {
        return outcome;
      }
      var result := Unwrapped(outcome.result);
      assert RetryEnds(Request(maxRetries, expectedDim, replies, cancelled), Done(outcome.result));
      if cache != null {
        var key := EmbeddingKey(config.hash, config.baseUrl, effective, text);
        result := result.(cached := false);
        cache.Set(key, result);
      }
      return Done(result);
    }
  }

  // ---------- whole runs ----------

  /** Cache and answers after a sequence of calls on a fresh service. */
  function ServeAll(config: Config, capacity: nat, calls: seq<Call>): (r: (Recency<Embedding>, seq<Outcome>))
    requires 0 < capacity
    ensures |r.1| == |calls|
  {
    if calls == [] then ([], [])
    else
      var before := ServeAll(config, capacity, calls[..|calls| - 1]);
      var after := Serve(config, capacity, before.0, calls[|calls| - 1]);
      (after.0, before.1 + [after.1])
  }

  ghost predicate SameRequest(config: Config, a: Call, b: Call) {
    a.text == b.text && EffectiveModel(config, a.model) == EffectiveModel(config, b.model)
  }

  /** No two of the calls share a key unless they ask for the same text and model. */
  ghost predicate KeysUnambiguous(config: Config, calls: seq<Call>) {
    forall i, j :: 0 <= i < |calls| && 0 <= j < |calls| && KeyOf(config, calls[i]) == KeyOf(config, calls[j]) ==>
      SameRequest(config, calls[i], calls[j])
  }

  /** Call `i` reached the backend, succeeded under `key`, and its unflagged answer is `e`. */
  ghost predicate Source(config: Config, calls: seq<Call>, answers: seq<Outcome>, i: nat, key: string, e: Embedding)
    requires |calls| == |answers|
  {
    && i < |calls| && !Blank(calls[i].text) && calls[i].outcome.Done?
    && KeyOf(config, calls[i]) == key
    && answers[i] == Done(e) && e == Unwrapped(calls[i].outcome.result).(cached := false)
  }

  /** Every cache entry is the unflagged answer of an earlier successful call with that key. */
  ghost predicate EntriesExplained(config: Config, capacity: nat, calls: seq<Call>)
    requires 0 < capacity
  {
    var r := ServeAll(config, capacity, calls);
    forall e :: e in r.0 ==>
      !e.value.cached && exists i: nat :: Source(config, calls, r.1, i, e.key, e.value)
  }

  lemma SourceExtends(config: Config, calls: seq<Call>, answers: seq<Outcome>, i: nat, key: string, e: Embedding,
                      call: Call, answer: Outcome)
    requires |calls| == |answers| && Source(config, calls, answers, i, key, e)
    ensures Source(config, calls + [call], answers + [answer], i, key, e)
  {
  }

  lemma ServeMembers(config: Config, capacity: nat, s: Recency<Embedding>, call: Call, e: Entry<Embedding>)
    requires 0 < capacity && e in Serve(config, capacity, s, call).0
    ensures e in s || (!Blank(call.text) && call.outcome.Done? && e.key == KeyOf(config, call) &&
                       e.value == Unwrapped(call.outcome.result).(cached := false) &&
                       Serve(config, capacity, s, call).1 == Done(e.value))
  {
    var key := KeyOf(config, call);
    FindIffKey(s, key);
    WithoutMembers(s, key);
  }

  lemma {:induction false} EntriesAlwaysExplained(config: Config, capacity: nat, calls: seq<Call>)
    requires 0 < capacity
    ensures EntriesExplained(config, capacity, calls)
  {
    if calls != [] {
      var init, last := calls[..|calls| - 1], calls[|calls| - 1];
      EntriesAlwaysExplained(config, capacity, init);
      var before, after := ServeAll(config, capacity, init), ServeAll(config, capacity, calls);
      assert calls == init + [last];
      forall e | e in after.0
        ensures !e.value.cached && exists i: nat :: Source(config, calls, after.1, i, e.key, e.value)
      {
        ServeMembers(config, capacity, before.0, last, e);
        if e in before.0 {
          var i: nat :| Source(config, init, before.1, i, e.key, e.value);
          SourceExtends(config, init, before.1, i, e.key, e.value, last, after.1[|init|]);
        } else {
          assert Source(config, calls, after.1, |init|, e.key, e.value);
        }
      }
    }
  }

  /** What answer `n` is: a failure is the uncached failure; an unflagged answer is this call's
      own; a flagged one is the answer of an earlier successful call with the same key. */
  ghost predicate AnswerExplained(config: Config, calls: seq<Call>, a: seq<Outcome>, n: nat)
    requires |calls| == |a| && n < |calls|
  {
    match a[n]
    case Failed(e) => a[n] == Uncached(calls[n])
    case Done(r) =>
      && !Blank(calls[n].text)
      && (!r.cached ==> calls[n].outcome.Done? && r == Unwrapped(calls[n].outcome.result).(cached := false))
      && (r.cached ==> exists i: nat ::
            i < n && Source(config, calls, a, i, KeyOf(config, calls[n]), r.(cached := false)))
  }

  lemma AnswerExplainedExtends(config: Config, calls: seq<Call>, a: seq<Outcome>, n: nat, call: Call, answer: Outcome)
    requires |calls| == |a| && n < |calls| && AnswerExplained(config, calls, a, n)
    ensures AnswerExplained(config, calls + [call], a + [answer], n)
  {
    if a[n].Done? && a[n].result.cached {
      var e := a[n].result.(cached := false);
      var i: nat :| i < n && Source(config, calls, a, i, KeyOf(config, calls[n]), e);
      SourceExtends(config, calls, a, i, KeyOf(config, calls[n]), e, call, answer);
    }
  }

  lemma {:induction false} LastAnswerExplained(config: Config, capacity: nat, init: seq<Call>, last: Call)
    requires 0 < capacity
    ensures var r := ServeAll(config, capacity, init);
            AnswerExplained(config, init + [last], r.1 + [Serve(config, capacity, r.0, last).1], |init|)
  {
    EntriesAlwaysExplained(config, capacity, init);
    var before := ServeAll(config, capacity, init);
    var answer := Serve(config, capacity, before.0, last).1;
    var key := KeyOf(config, last);
    FindIffKey(before.0, key);
    if !Blank(last.text) && Find(before.0, key).Some? {
      var e := Entry(key, Find(before.0, key).value);
      var i: nat :| Source(config, init, before.1, i, e.key, e.value);
      SourceExtends(config, init, before.1, i, key, e.value, last, answer);
      assert answer.result.(cached := false) == e.value;
    }
  }

  lemma {:induction false} AnswersExplained(config: Config, capacity: nat, calls: seq<Call>, n: nat)
    requires 0 < capacity && n < |calls|
    ensures AnswerExplained(config, calls, ServeAll(config, capacity, calls).1, n)
  {
    var init, last := calls[..|calls| - 1], calls[|calls| - 1];
    assert calls == init + [last];
    var before := ServeAll(config, capacity, init);
    if n < |init| {
      AnswersExplained(config, capacity, init, n);
      AnswerExplainedExtends(config, init, before.1, n, last, Serve(config, capacity, before.0, last).1);
    } else {
      LastAnswerExplained(config, capacity, init, last);
    }
  }

  /** Every answer the service gives has the dimension its requests were held to, cached or not. */
  lemma {:induction false} AnswersHaveDimension(config: Config, capacity: nat, calls: seq<Call>, n: nat, expected: nat)
    requires 0 < capacity && n < |calls|
    requires forall i :: 0 <= i < |calls| && calls[i].outcome.Done? ==>
               HaveDimension(calls[i].outcome.result.vectors, expected)
    ensures var a := ServeAll(config, capacity, calls).1; a[n].Done? ==> HaveDimension(a[n].result.vectors, expected)
  {
    AnswersExplained(config, capacity, calls, n);
    var a := ServeAll(config, capacity, calls).1;
    if a[n].Done? && a[n].result.cached {
      var i: nat :| i < n && Source(config, calls, a, i, KeyOf(config, calls[n]), a[n].result.(cached := false));
      assert a[n].result.vectors == Unwrapped(calls[i].outcome.result).vectors;
    }
  }

  /** The backend's answer depends on model and text alone. */
  ghost predicate DeterministicBackend(config: Config, calls: seq<Call>, backend: (string, string) -> Embedding) {
    forall i :: 0 <= i < |calls| && calls[i].outcome.Done? ==>
      calls[i].outcome.result == backend(EffectiveModel(config, calls[i].model), calls[i].text)
  }

  /** Refinement: when keys are unambiguous, every answer of the cached service carries exactly
      what the backend answers for that model and text; the cache only turns failures into
      successes, and flags an answer only if an earlier call asked the same and succeeded. */
  lemma {:induction false} CacheRefinesBackend(config: Config, capacity: nat, calls: seq<Call>,
                            backend: (string, string) -> Embedding, n: nat)
    requires 0 < capacity && n < |calls|
    requires KeysUnambiguous(config, calls) && DeterministicBackend(config, calls, backend)
    ensures var a := ServeAll(config, capacity, calls).1;
            match a[n]
            case Failed(e) => a[n] == Uncached(calls[n])
            case Done(r) =>
              && r.(cached := false) ==
                 Unwrapped(backend(EffectiveModel(config, calls[n].model), calls[n].text)).(cached := false)
              && (r.cached ==>
                    exists i :: 0 <= i < n && SameRequest(config, calls[i], calls[n]) && Uncached(calls[i]).Done?)
  {
    AnswersExplained(config, capacity, calls, n);
    var a := ServeAll(config, capacity, calls).1;
    if a[n].Done? && a[n].result.cached {
      var i: nat :| i < n && Source(config, calls, a, i, KeyOf(config, calls[n]), a[n].result.(cached := false));
      assert SameRequest(config, calls[i], calls[n]) && Uncached(calls[i]).Done?;
    }
  }

  /** The cache never turns an uncached success into a failure. */
  lemma {:induction false} CacheKeepsSuccess(config: Config, capacity: nat, calls: seq<Call>, n: nat)
    requires 0 < capacity && n < |calls| && Uncached(calls[n]).Done?
    ensures ServeAll(config, capacity, calls).1[n].Done?
  {
    AnswersExplained(config, capacity, calls, n);
  }

  function Preimage(config: Config, call: Call): string {
    EmbeddingPreimage(config.baseUrl, EffectiveModel(config, call.model), call.text)
  }

  /** Keys are unambiguous as soon as the hashed inputs do not collide and no model in use is a
      colon extension of another. */
  lemma UnambiguousWithoutColonExtension(config: Config, calls: seq<Call>)
    requires CollisionFree(config.hash, set c | c in calls :: Preimage(config, c))
    requires forall i, j :: 0 <= i < |calls| && 0 <= j < |calls| ==>
               !ColonExtension(EffectiveModel(config, calls[i].model), EffectiveModel(config, calls[j].model))
    ensures KeysUnambiguous(config, calls)
  {
    forall i, j | 0 <= i < |calls| && 0 <= j < |calls| && KeyOf(config, calls[i]) == KeyOf(config, calls[j])
      ensures SameRequest(config, calls[i], calls[j])
    {
      assert calls[i] in calls && calls[j] in calls;
      assert Preimage(config, calls[i]) == Preimage(config, calls[j]);
      EmbeddingPreimageExact(config.baseUrl, EffectiveModel(config, calls[i].model), calls[i].text,
                             EffectiveModel(config, calls[j].model), calls[j].text);
    }
  }

  /** The refinement really fails for model names with a colon: whenever one model is a colon
      extension of the other, two texts exist for which the second request is answered with the
      first one's vectors, whatever digest is used. */
  lemma ColonExtensionServesWrongVectors(config: Config, capacity: nat, model1: string, model2: string,
                                           r1: Embedding, r2: Embedding)
    returns (first: Call, second: Call)
    requires 0 < capacity && model1 != "" && ColonExtension(model1, model2)
    ensures !SameRequest(config, first, second) && Uncached(first) == Done(Unwrapped(r1))
                && Uncached(second) == Done(Unwrapped(r2))
    ensures first.model == model1 && second.model == model2
    ensures ServeAll(config, capacity, [first, second]).1[1] == Done(Unwrapped(r1).(cached := true))
  {
    first := Call(model2[|model1| + 1..] + ":" + "a", model1, Done(r1));
    second := Call("a", model2, Done(r2));
    assert first.text[|first.text| - 1] == 'a' && second.text[0] == 'a' && !IsSpace('a');
    assert 'a' in first.text && 'a' in second.text;
    assert !Blank(first.text) && !Blank(second.text);
    ExtensionRejoins(model1, model2, "a");
    PreimageParts(config.baseUrl, model1, first.text, model2, "a");
    assert [first, second][..1] == [first] && [first][..0] == [];
    var e := Entry(KeyOf(config, first), Unwrapped(r1).(cached := false));
    assert ServeAll(config, capacity, [first]).0 == [e];
    assert Find([e], KeyOf(config, second)) == Some(e.value);
  }

  /** An answer of the backend's as the service gives it: with its first vector alone, if it has any, and
      not flagged. */
  ghost predicate Keeps(answer: Embedding, given: Embedding) {
    && answer.vectors == (if given.vectors == [] then [] else [given.vectors[0]])
    && answer.model == given.model && answer.provider == given.provider && !answer.cached
  }

  /** The white space of Unicode. */
  predicate White(c: char) {
    c as int in {0x09, 0x0A, 0x0B, 0x0C, 0x0D, 0x20, 0x85, 0xA0, 0x1680, 0x2000, 0x2001, 0x2002, 0x2003, 0x2004, 0x2005,
                 0x2006, 0x2007, 0x2008, 0x2009, 0x200A, 0x2028, 0x2029, 0x202F, 0x205F, 0x3000}
  }

  /** Both calls, a missing model taken for the default one, have the same key. */
  predicate ShareKey(config: Config, a: Call, b: Call) {
    EmbeddingKey(config.hash, config.baseUrl, if a.model == "" then config.defaultModel else a.model, a.text) ==
    EmbeddingKey(config.hash, config.baseUrl, if b.model == "" then config.defaultModel else b.model, b.text)
  }

  lemma WhiteIsSpace(c: char)
    ensures White(c) <==> IsSpace(c)
  {
    var blanks := "\t\n\r ";
    assert blanks[0] == 0x09 as char && blanks[1] == 0x0A as char;
    assert blanks[2] == 0x0D as char && blanks[3] == 0x20 as char;
    if c in blanks {
      var i :| 0 <= i < 4 && blanks[i] == c;
    }
  }

  /** What every call of every sequence is answered with: nothing but the error of empty text for white
      space; otherwise what the backend gave this call, or the error it ended in, or, flagged, what it
      gave an earlier call with the same key. */
  lemma {:induction false} EveryAnswer(config: Config, capacity: nat, calls: seq<Call>, n: nat)
    requires 0 < capacity && n < |calls|
    ensures var a, call := ServeAll(config, capacity, calls).1[n], calls[n];
            if forall c :: c in call.text ==> White(c) then a == Failed(EmptyText)
            else match a
              case Failed(e) => call.outcome == Failed(e)
              case Done(r) =>
                if !r.cached then call.outcome.Done? && Keeps(r, call.outcome.result)
                else exists i: nat :: i < n && ShareKey(config, calls[i], call)
                       && calls[i].outcome.Done? && Keeps(r.(cached := false), calls[i].outcome.result)
  {
    AnswersExplained(config, capacity, calls, n);
    forall c ensures White(c) <==> IsSpace(c) { WhiteIsSpace(c); }
    var a := ServeAll(config, capacity, calls).1;
    if a[n].Done? && a[n].result.cached {
      var i: nat :| i < n && Source(config, calls, a, i, KeyOf(config, calls[n]), a[n].result.(cached := false));
      assert i < n && ShareKey(config, calls[i], calls[n]);
    }
  }
}
