# Cribug verification

A Dafny model of the parts of Cribug that are algorithms or protocols in their own right, with
proofs of what callers rely on. `dafny verify dfyconfig.toml` checks the whole project.

- **LRU caches.** `EmbeddingCache` is the linked list of `internal/embeddings/cache.go` on the heap:
  nodes, two sentinels and a key index, each method proved to take one step of the abstract recency
  list in `RecencyList`. `TokenCache` holds the expiring `LocalLRU` and the two-level token cache; it
  takes the steps of the same list. Theorems about whole traces (capacity inclusion, what a hit
  returns, how long an entry survives) are proved once, about the list. `RecencyLaw` is the law of
  least recent use, over calls and their answers alone, which fixes every answer.
- **Cache clients.** `CacheKeys` says when two requests share a key. `EmbeddingRequest` is one request
  to the embedding backend with its retries, told apart by the texts in `ErrorTexts`;
  `EmbeddingService` compares the cached service with the same calls made without a cache.
  `TokenLaw` gives every answer of the two-level token cache used by one call after the other;
  `TokenTraces` is about such use, every clock reading and every failure of level 2 included: which
  count each level holds, how old it can be, and when an older one can come back. `TokenCalls` is the
  token estimate as a state machine of atomic steps with any number of calls in flight: provenance,
  staleness and counter conservation for every interleaving.
- **Calculator.** `CalculatorLexer`, `CalculatorParser`, `Calculator`: the tokenizer loop, the three
  mutually recursive parsing functions, and the round trip from arithmetic trees through printed
  text back to values. `CalculatorTexts` says character by character which texts are read, as what,
  and where the others are refused; `CalculatorErrors` gives every error of those that are read. Reals
  stand for floating point.
- **DAG failure.** `DagFailure` is the breadth-first skip over dependents, `DagReports` one report as
  it rewrites the stored statuses, the counters and the event stream, and `DagRuns` runs of reports,
  any of which may fail to read or get only part of its statuses written. `DagEffects` says what a
  report stores, counts and announces over walks in the plan alone, and that blame follows shortest
  walks.
- **Ingestion.** `Ingestion` runs embed, upsert, mark with a fault at any step and any number of retries.
- **Event stream.** `EventStream` is replay and follow by cursor, while others append and trim;
  `StreamEnds` is what the client is shown round by round and how the stream ends.
- **Best path.** `BestPath` is the choice of the best path in a tree of thoughts.
- **Routing.** `ModeRouter` scores, boosts, sorts and selects modes and blends in LLM scores;
  `ModeScores` spells out the number behind every candidate, `MergeStability` says exactly when the
  sort keeps ties in order. `ModePermissions` sets the selection against what the user allowed,
  `ModeArbiter` is the second opinion of the classifier, on a scored list or behind a keyword, and
  `ModePlanning` all of planning: keyword or scores, then the classifier where its conditions are met.
  `ModeExecution` is the step from the planned mode to the executed one. `PlanningLaw` spells planning and
  execution out rule by rule.
- **Hooks.** `HookRuntime` combines handler results into one verdict; `HookOutcomes` says what comes of
  an event, told apart from how the runtime gets there.
- `Wrappers`, `Numbers` and `Sequences` hold what several modules share.

Code that updates things in place is modelled in place: classes over the heap for the caches, the
hook results and the stores, arrays for the candidate lists, loops where the source loops. Each such
method is tied to a function on values, and the theorems are about that function. Every induction is
written out; `{:induction false}` keeps Dafny from guessing one of its own.

What the model takes as parameters: the clock, the SHA-256 digest, tokenizer, embedder and LLM
answers, HTTP reactions, failures of Redis, SQL and the vector store, and what other processes do to
the event stream. Nothing is assumed of the digest beyond fixed length and, where a statement says
so, the absence of collisions among the inputs actually hashed.

## Where the code differs from its documentation

The model follows the code.

- `mergeLLMScores` says its sort is stable (`internal/activities/router_classifier.go:546`). It is not:
  `ModeRouter.ExchangeSortNotStable` is the smallest example, and
  `MergeStability.StableIffWholeRounds` the exact condition.
- `selectPlannedModeV2` says that direct_answer is a fallback for complete rejection
  (`internal/activities/router_v2.go:823-826`). The explanation claims so whenever direct_answer is
  selected, and lacks a selected mode when everything was rejected. The claim is untrue exactly if
  the rejection rules let direct_answer pass and no mode before it in the list
  (`ModeRouter.ExplanationGaps`, `ModeRouter.BlameIsTrueIff`); `ModeRouter.BlamedThoughAccepted` is
  such a request.
- A mode the user blocks shall be rejected whatever the request requires
  (`internal/activities/router.go:350-353`). The rules look at the permission only if the capability is
  required as well (`internal/activities/router_v2.go:376-391`), so scoring keeps to the permissions,
  whatever the policy, exactly if the request requires everything the user withholds
  (`ModePermissions.NeverSelectsForbiddenIff`); `ModePermissions.ForbiddenModeSelected` is a request for
  which it does not. A keyword's pick is not rejected at all
  (`internal/activities/router_v2.go:690-698`): behind a keyword the planned mode is always an allowed one
  exactly if the user allows the pick and the mode put behind it (`ModePlanning.NeverPlansForbiddenIff`,
  `ModePlanning.KeywordOverridesUser`). The shipped fallback table makes up for both when the mode is
  executed (`ModeExecution.ShippedIsSafe`), which depends on the table (`ModeExecution.KeepsPermissionsIff`).
- The user's latency ceiling shall be the one enforced (`internal/activities/router.go:360-363`). One below
  thirty seconds is raised to that (`internal/activities/router_v2.go:56`,
  `ModePermissions.AlwaysAsAskedIff`, `ModePermissions.CeilingIgnored`).
- A mode that exceeds the budget or the ceiling shall give way to another
  (`docs/superpowers/plans/HighLevelRouter.md:165-166`). A keyword's pick never does
  (`ModePlanning.AlwaysPlansAsAskedIff`, `ModePlanning.KeywordOverBudget`).
- The classifier shall not be able to give up a selected sandbox
  (`internal/activities/router_v2.go:974-976`), least of all for tools
  (`docs/superpowers/plans/HighLevelRouter.md:169`). The rule looks at the mode it names, not at its scores
  (`ModeArbiter.SandboxStaysIff`, `ModeArbiter.SandboxGivenUp`). Behind a keyword the sandbox never
  survives every answer, and what takes its place is the tool mode, be it one the rules reject and the
  user forbids (`ModePlanning.KeywordPlanForbidden`). So such a request is sure to be executed in the
  sandbox only if the classifier is not heard (`ModePlanning.SandboxRunsIff`).
- Withheld tools shall not block workflows (`internal/activities/router_v2.go:392-394`). They do when the
  mode is executed (`internal/activities/router.go:697-701`, `ModeExecution.ShippedAsPlannedIff`,
  `ModeExecution.WorkflowGivenUp`).
- The fallback for a user's block shall apply if the user's flag is off
  (`internal/activities/router.go:652-660`). It applies as well if the request was not found to require the
  capability, and then blames a user who allowed it (`ModeExecution.AlwaysBlamesRightlyIff`,
  `ModeExecution.AllowedModeBlamed`).
- A disabled mode can be executed, as the fallback of another one: the target's own flag is not looked at
  (`ModeExecution.KeepsFeaturesIff`, `ModeExecution.ShippedKeepsFeaturesIff`,
  `ModeExecution.DisabledModeExecuted`).
- The calculator ignores whatever stands behind the expression it parsed
  (`internal/activities/tools.go:122`): `1 2)` evaluates like `1` (`Calculator.TrailingInputIgnored`).
  A text is accepted as a whole exactly if the parser stopped at the end marker
  (`Calculator.AcceptedWholeIff`).
- Retries are meant for HTTP 5xx (`internal/embeddings/service.go:231-241`), but errors are told apart by
  their text. Another status is retried exactly if its body mentions a server error code or a status
  beginning with 5 (`EmbeddingRequest.StatusRetriedIff`, `EmbeddingRequest.BadRequestRetried`), and an
  embedding of the wrong dimension exactly if one of the numbers in the message has the digits of such a
  code (`EmbeddingRequest.MismatchRetriedIff`, `EmbeddingRequest.MismatchRetried`).
- Fail-closed does not cover every failure: an unknown internal handler, the failing test handler and
  an unsupported URL scheme never reach the fail-closed rule (`HookRuntime.FailClosedExactly`,
  `HookRuntime.UnknownHandlerLetsThrough`).
- The embeddings cache joins provider, model and text with colons, so model names that contain one
  can be confused (`CacheKeys.ModelsUnambiguousIff`,
  `EmbeddingService.ColonExtensionServesWrongVectors`).
- A failed level-2 write lets an older token count come back after the newer one has left level 1. A
  write settles what is served from then on exactly if it gets through, or what level 2 still holds from
  before it is nothing, the same count or expired (`TokenTraces.TellSettlesIff`, and `TokenTraces.SettledIff` for
  whole traces); `TokenTraces.FailedWriteServesOlderCount` is the smallest example.
- A cached count can be older than both lifetimes together, by the time that passes between reading
  level 2 and writing level 1, since the refill reads the clock again
  (`internal/activities/token_cache.go:193-194`). This holds of calls made one after the other
  (`TokenTraces.HitIsFresh`, `TokenTraces.LateRefillIsOld`, `TokenTraces.BoundWithoutDelayIff`) as of
  calls in flight at once (`TokenCalls.CachedAnswerProvenance`, `TokenCalls.StalenessBoundIsTight`).
- A failure report that cannot read the stored statuses goes on with none and overwrites what was
  there (`DagReports.ReadFailureForgets`, `DagReports.FailedReadClosedIff`, `DagRuns.FailedReadLeavesOpen`).
  The counters it writes then describe the store exactly if that holds nothing but the plan
  (`DagReports.CountersDescribeStoreIff`, `DagRuns.CountersMissNode`).
- A report whose write gets part way can leave a dependent of a failed node open until it is retried
  (`DagRuns.PartialWriteClosedIff`, `DagRuns.PartialWriteLeavesOpen`, `DagRuns.RunClosedIff`).
- A retried report whose `FailedAtNs` is zero stamps a new time (`DagReports.RetryReachesSameState`).

## Model

| member | source | states |
|---|---|---|
| `RecencyList.StepInvariant` | internal/embeddings/cache.go:52-89 | no Get or Set, hit, miss or stale, lets a key occur twice or the list outgrow its capacity |
| `RecencyList.RunInvariant` | internal/activities/token_cache.go:50-95 | the same after any trace from an empty cache |
| `RecencyList.IncludedStep` | internal/activities/token_cache.go:50-95 | one call on a small and a large cache keeps the small list a subsequence of the large one and their sizes at most the extra capacity apart; a small hit is the same large hit |
| `RecencyList.CapacityInclusion` | internal/embeddings/cache.go:52-89 | over every trace, enlarging a cache never loses a hit and never changes its value |
| `RecencyList.HitReturnsLastSet` | internal/embeddings/cache.go:52-89 | whatever is found under a key is what the most recent Set of that key stored |
| `RecencyList.RetentionGuarantee` | internal/embeddings/cache.go:120-128 | least recently used, as a promise to callers: an entry outlives any later trace that touches fewer than `capacity` other keys |
| `RecencyLaw.PresentIff` | internal/embeddings/cache.go:51-128 | least recently used, exactly: over every trace a key is in the cache exactly if the last call on it wrote or hit it, and at no time since have as many other keys as there are places been written or hit more recently; a call that misses, after eviction or expiry, is no use |
| `RecencyLaw.AnswerExact` | internal/activities/token_cache.go:50-95 | hence every answer of every trace, fixed by the calls and answers before it: what the last Set of the key stored if the key is so retained and the value not stale, a miss otherwise |
| `EmbeddingCache.LruCache.constructor` | internal/embeddings/cache.go:28-42 | an empty well-formed list between linked sentinels; a size that is not positive becomes 1000 |
| `EmbeddingCache.LruCache.RemoveNode` | internal/embeddings/cache.go:113-118 | the list loses exactly that node and stays doubly linked |
| `EmbeddingCache.LruCache.PushFront` | internal/embeddings/cache.go:105-110 | the list gains exactly that node behind the head sentinel and stays doubly linked |
| `EmbeddingCache.LruCache.MoveToFront` | internal/embeddings/cache.go:99-102 | the node moves to the front and all others keep their order |
| `EmbeddingCache.LruCache.Get` | internal/embeddings/cache.go:52-63 | performs the abstract step: a hit moves exactly its entry to the front, the others in their order behind it, and returns its value; a miss changes nothing |
| `EmbeddingCache.LruCache.Set` | internal/embeddings/cache.go:66-89 | performs the abstract step: update and promote, or insert in front after evicting the last entry of a full cache |
| `EmbeddingCache.LruCache.Insert` | internal/embeddings/cache.go:77-88 | the abstract step for a key not yet present |
| `EmbeddingCache.LruCache.EvictLRU` | internal/embeddings/cache.go:121-128 | drops exactly the least recent entry from list and index; nothing on an empty cache |
| `EmbeddingCache.LruCache.Len` | internal/embeddings/cache.go:92-96 | the index size is the number of abstract entries |
| `EmbeddingCache.LruCache.Present` | internal/embeddings/cache.go:19-25 | every index entry is a node of the list, under its own key, with the abstract value |
| `EmbeddingCache.LruCache.WalkMeetsEachEntryOnce` | internal/embeddings/cache.go:98-118 | following next from the head meets every indexed entry exactly once and then the tail; following prev from the tail retraces the walk |
| `CacheKeys.TokenKeyExact` | internal/activities/token_cache.go:118-123 | two requests share a token key exactly when models and digests agree, whatever characters the models contain |
| `CacheKeys.TokenKeyInjective` | internal/activities/token_cache.go:118-123 | without a collision between the two inputs, sharing a key means same model and same text |
| `CacheKeys.EmbeddingPreimageExact` | internal/embeddings/cache.go:45-48 | exactly which pairs of requests are joined into the same hashed text |
| `CacheKeys.ModelsUnambiguousIff` | internal/embeddings/cache.go:45-48 | two models never clash, for any texts, exactly if neither is the other plus a colon and more; names without a colon always qualify |
| `EmbeddingRequest.DoEmbed` | internal/embeddings/service.go:172-228 | one attempt: the answer if the exchange succeeds with status 200 and every vector has the expected dimension, else the error, transient or not by its text |
| `EmbeddingRequest.AnsweredIffDimensions` | internal/embeddings/service.go:199-214 | an attempt yields an answer exactly if the exchange did, with status 200, and all its vectors have the expected dimension |
| `EmbeddingRequest.MismatchRetriedIff` | internal/embeddings/service.go:209-241 | a wrong dimension is retried exactly if the position, the dimension or the expected one has a server error code among its digits |
| `EmbeddingRequest.MismatchRetried` | internal/embeddings/service.go:209-241 | 500 coordinates in place of 1536 are asked for again |
| `EmbeddingRequest.StatusRetriedIff` | internal/embeddings/service.go:199-241 | a status other than 200 is retried exactly if its digits read like a server error's, which for three digits means 5xx, or the body has a server error code or a status beginning with 5 in it |
| `EmbeddingRequest.BadRequestRetried` | internal/embeddings/service.go:199-241 | a bad request is made again because its answer mentions a number |
| `EmbeddingRequest.RetriedIff` | internal/embeddings/service.go:171-241 | whatever goes wrong with an attempt, spelled out as the text of its error, it is made again exactly if that has the mark of a server error in it |
| `EmbeddingRequest.EmbedWithRetry` | internal/embeddings/service.go:141-169 | the loop computes the retry outcome: immediate first attempt, cancellable waits, stop at the first attempt that is not a transient failure |
| `EmbeddingRequest.RetryExact` | internal/embeddings/service.go:141-169 | which of answer, rejection, cancellation and exhaustion it ends with, in terms of the attempts, both directions |
| `EmbeddingRequest.RetryKeepsDimension` | internal/embeddings/service.go:141-214 | an answer that comes through any number of retries has the expected dimension |
| `EmbeddingService.Service.constructor` | internal/embeddings/service.go:46-78 | defaults for unset fields, timeout, retries and expected dimension included, and a cache exactly if enabled |
| `EmbeddingService.Service.EmbedText` | internal/embeddings/service.go:82-120 | with a cache it performs the cached call on the abstract list, without one the uncached call; an error is that of blank text or the one the retries end in, and a vector that is not from the cache the first of the answer they end with |
| `EmbeddingService.EntriesAlwaysExplained` | internal/embeddings/service.go:112-117 | over every call sequence, an entry is never flagged cached and is the answer of an earlier successful call with that key: errors are never stored |
| `EmbeddingService.AnswersExplained` | internal/embeddings/service.go:82-120 | every answer is this call's own, or flagged and an earlier call's under the same key; a failure is the uncached failure |
| `EmbeddingService.EveryAnswer` | internal/embeddings/service.go:82-120 | what any call of any sequence is answered with, field by field: the error of empty text for white space alone; the first vector of what the backend gave this call, unflagged; the error it ended in; or, flagged, what it gave an earlier call with the same key |
| `EmbeddingService.CacheRefinesBackend` | internal/embeddings/service.go:82-120 | with a deterministic backend and unambiguous keys every success carries the backend's vectors for that model and text, flagged only if an earlier call asked the same and succeeded |
| `EmbeddingService.CacheKeepsSuccess` | internal/embeddings/service.go:82-120 | a call that would succeed without the cache succeeds with it |
| `EmbeddingService.AnswersHaveDimension` | internal/embeddings/service.go:82-120 | over every call sequence answers keep the dimension that backend answers were held to, cached or not |
| `EmbeddingService.UnambiguousWithoutColonExtension` | internal/embeddings/cache.go:45-48 | keys are unambiguous if the hashed inputs do not collide and no model in use extends another by a colon |
| `EmbeddingService.ColonExtensionServesWrongVectors` | internal/embeddings/cache.go:45-48 | for every such pair of models, two requests whose second is answered with the first one's vectors |
| `TokenCache.LocalLRU.constructor` | internal/activities/token_cache.go:34-47 | empty, with defaults for a capacity or lifetime that is not positive |
| `TokenCache.LocalLRU.Get` | internal/activities/token_cache.go:50-66 | performs the abstract step with expiry: a hit puts its key in front of the others in their order; an expired entry is dropped and reported as a miss |
| `TokenCache.LocalLRU.Set` | internal/activities/token_cache.go:69-95 | performs the abstract step, the eviction loop included, and restarts the lifetime |
| `TokenCache.LocalLRU.RemoveBack` | internal/activities/token_cache.go:82-90 | evicts exactly the last entry from order and items |
| `TokenCache.LocalLRU.Len` | internal/activities/token_cache.go:97-101 | the number of abstract entries |
| `TokenCache.TwoLevelTokenCache.constructor` | internal/activities/token_cache.go:173-179 | both levels start empty, with five minutes, one hour and ten thousand places where nothing positive is given |
| `TokenCache.TwoLevelTokenCache.Get` | internal/activities/token_cache.go:183-204 | answer, both levels and all counters after a lookup that may fail at level 2, with one clock reading for each of the two levels and one for the refill |
| `TokenCache.TwoLevelTokenCache.GetShared` | internal/activities/token_cache.go:193-203 | what happens after a level-1 miss: refill at its own clock reading and counters on a level-2 hit, else a counted miss |
| `TokenCache.TwoLevelTokenCache.Set` | internal/activities/token_cache.go:207-211 | both levels after a write that may fail at level 2, each stamped at its own clock reading |
| `TokenCache.TwoLevelTokenCache.EstimatePromptTokens` | internal/activities/budget.go:44-95 | answer and store after an estimate, with separate clock readings for lookup and store; a fallback count is stored like a real one |
| `TokenCache.FallbackExact` | internal/activities/budget.go:65-68 | the fallback is the least number of four-byte groups covering the text, and at least one |
| `TokenTraces.SharedIsLastKept` | internal/activities/token_cache.go:143-211 | after any sequential run, whatever failed and whatever Redis dropped, level 2 holds under each key exactly what last got through to it and was not dropped since |
| `TokenTraces.LocalIsLastOfEither` | internal/activities/token_cache.go:183-211 | and level 1 the count that last got through, dropped since or not, or the one last told |
| `TokenTraces.HitIsLastOfEither` | internal/activities/token_cache.go:183-211 | so whatever fails, a hit returns the count last told or the one that last got through |
| `TokenTraces.HitIsMostRecent` | internal/activities/token_cache.go:183-211 | a hit returns the count most recently told for that model and text unless an older one is the last that got through, whatever else fails |
| `TokenTraces.SettledIff` | internal/activities/token_cache.go:183-211 | all later hits, under every continuation, return the count last told exactly if neither level holds a live older one |
| `TokenTraces.TellSettlesIff` | internal/activities/token_cache.go:143-151 | for one write: exactly if it gets through to level 2, or what level 2 still holds from before it is nothing, the same count or expired |
| `TokenTraces.HitIsFresh` | internal/activities/token_cache.go:183-211 | sequentially and whatever fails, a hit's count was told at most l1TTL + l2TTL plus the longest delay of a refill ago |
| `TokenTraces.LateRefillIsOld` | internal/activities/token_cache.go:193-194 | for every delay a sequential run whose hit is exactly that old |
| `TokenTraces.BoundWithoutDelayIff` | internal/activities/token_cache.go:183-211 | the two lifetimes alone bound the age of every hit of every sequential run exactly if refills take no time |
| `TokenTraces.FailedWriteServesOlderCount` | internal/activities/token_cache.go:143-151 | the smallest case: one failed level-2 write, and the older count is served once level 1 has let go of the newer |
| `TokenLaw.AskExact` | internal/activities/token_cache.go:183-205 | every answer of every sequential run: from level 1 exactly if that has kept the key, by the law of least recent use over what was got and set there, and the count is alive; else from level 2 exactly if it can be read and has kept it alive; else a miss |
| `TokenLaw.CountersExact` | internal/activities/token_cache.go:183-230 | every look-up is counted once, as a hit of its level or a miss, and none without a connection |
| `TokenLaw.EstimateIs` | internal/activities/budget.go:44-95 | an estimate is answered with what the look-up finds, or else counted anew, stored at both levels for their lifetimes and counted by its source |
| `TokenCalls.EventsAreWrites` | internal/activities/token_cache.go:183-211 | no step forgets a write, and one it adds to the history is one that it made and that the store now holds |
| `TokenCalls.StepExplained` | internal/activities/token_cache.go:183-211 | every atomic step of every call keeps each stored and carried count traceable to a recent write under its key |
| `TokenCalls.CachedAnswerProvenance` | internal/activities/token_cache.go:183-211 | under any interleaving, failures and evictions, a cached answer was stored for that very model and text, at most l1TTL + l2TTL plus the longest backfill delay before it was read |
| `TokenCalls.StalenessBoundIsTight` | internal/activities/token_cache.go:183-211 | for every delay some run, in which each call begins after all earlier ones are done, answers from a count last written exactly l1TTL + l2TTL plus that delay before |
| `TokenCalls.UnambiguousWithoutCollisions` | internal/activities/token_cache.go:118-123 | requests in use do not share keys if their hashed inputs do not collide |
| `TokenCalls.AnswersAgreeWithUncached` | internal/activities/budget.go:44-95 | every answer of every interleaving is one the tokenizer gives for that text and model, or the length estimate of that text |
| `TokenCalls.MoveCounts` | internal/activities/token_cache.go:183-230 | each step moves the counters exactly as it moves the call |
| `TokenCalls.CountersConserved` | internal/activities/token_cache.go:183-230 | at rest hits = local + redis hits, misses = python + fallback calls, and together they count the calls; in between each gap is at most the number of calls in flight |
| `TokenCalls.UninterruptedCallIsSequential` | internal/activities/budget.go:44-95 | a call nobody interrupts, whatever its clock readings, ends with the answer and the store of the sequential code, and adds to the lag only the delay of its own refill |
| `CalculatorLexer.ScanNumber` | internal/activities/tools.go:194-216 | reads the longest literal at its position and continues behind it |
| `CalculatorLexer.AppendSymbol` | internal/activities/tools.go:218-248 | the tokens of one character, with the zero before a minus that has no left operand, or the error |
| `CalculatorLexer.ScanToken` | internal/activities/tools.go:185-249 | one round of the loop: what is read and what is left still make up the input |
| `CalculatorLexer.Tokenize` | internal/activities/tools.go:173-260 | the whole loop computes the recursive reading of the text, error included |
| `CalculatorLexer.LeadingZeroIsRedundant` | internal/activities/tools.go:177-183 | the zero prepended to the text changes no token: the insertion at the minus would have supplied it |
| `CalculatorLexer.LexRender` | internal/activities/tools.go:173-260 | printed tokens are read back, with the zeros inserted, under any spacing and in front of any following text |
| `CalculatorTexts.RefusedAtFirstBad` | internal/activities/tools.go:173-249 | the converse: a text is read exactly if each character is white space, a digit, a point or one of + - * / ( ) and each point begins or continues a number; otherwise the error names the first character that is not, or is that of a misplaced point |
| `CalculatorTexts.ReadIffWritten` | internal/activities/tools.go:173-260 | a text is read as certain tokens exactly if it is written tokens with white space around them, numbers touching only at the second one's point, and these with the zeros inserted are the tokens |
| `CalculatorTexts.OneCharacter` | internal/activities/tools.go:191-248 | what each single character is read as |
| `CalculatorParser.ParseExpression` | internal/activities/tools.go:262-288 | terminates and computes the recursive specification, depth check first |
| `CalculatorParser.ParseTerm` | internal/activities/tools.go:290-315 | the same for terms |
| `CalculatorParser.ParseFactor` | internal/activities/tools.go:317-349 | the same for factors, with every error case |
| `CalculatorParser.LiteralPlaceValue` | internal/activities/tools.go:325-327 | a literal with a decimal point denotes its digits at their place values |
| `CalculatorParser.WholeLiteralValue` | internal/activities/tools.go:325-327 | a literal of digits denotes the integer they write |
| `CalculatorParser.ExprRead` | internal/activities/tools.go:262-349 | completeness: the tokens of a left-leaning expression parse to its meaning, or to the first thing that goes wrong in it |
| `CalculatorParser.ExprSound` | internal/activities/tools.go:262-349 | soundness: whatever was consumed is a grammar derivation with the returned value |
| `CalculatorParser.ParserExact` | internal/activities/tools.go:262-349 | on arbitrary tokens, success with a value and an end position exactly if the tokens between derive an expression of that value and no operator follows |
| `CalculatorParser.ParserStopsBeforeEof` | internal/activities/tools.go:262-349 | success consumes something and never passes an end marker |
| `Calculator.EvaluateArithmetic` | internal/activities/tools.go:110-128 | tokenizer and parser composed, text behind the parsed part ignored |
| `Calculator.ExecuteCalculator` | internal/activities/tools.go:65-88 | more than 256 bytes are refused, all else is evaluated |
| `Calculator.EvaluatePrinted` | internal/activities/tools.go:110-128 | the text of any expression, however spaced, evaluates to its meaning, error included |
| `Calculator.EvaluatePrintedThenMore` | internal/activities/tools.go:121-122 | the same with any readable text behind it that does not continue it |
| `Calculator.EvaluateExact` | internal/activities/tools.go:110-128 | a text evaluates to a value exactly if its tokens begin with an expression of that value |
| `Calculator.EvaluateTextExact` | internal/activities/tools.go:110-131 | the same over the text: evaluated to a value exactly if it is written tokens, spaced in any way, that begin with an expression of that value; refused as unreadable exactly at its first bad character |
| `CalculatorErrors.ParseOutcome` | internal/activities/tools.go:262-350 | what parsing any tokens comes to, by reading them one by one: a division by zero if one is reached; else a value if reading stops behind an operand with no parenthesis open; else the error of the place where it stops |
| `CalculatorErrors.ErrorExact` | internal/activities/tools.go:110-131 | every error of every text: it fails with it exactly if it is written tokens, spaced in any way, that fail with it |
| `Calculator.AcceptedWholeIff` | internal/activities/tools.go:110-128 | an accepted text is an expression of that value from end to end exactly if the token at which the parser stopped is the end marker |
| `Calculator.TrailingInputIgnored` | internal/activities/tools.go:121-122 | `1 2)` evaluates like `1` |
| `Calculator.ExprAgrees` | internal/activities/tools.go:262-315 | evaluation yields the arithmetic value exactly within the nesting limit and without zero divisors, and names the limit or the division otherwise |
| `Calculator.TreeKeepsValue` | internal/activities/tools.go:262-349 | printing with parentheses where precedence and associativity need them keeps a tree's value |
| `Calculator.TreeRoundTrip` | internal/activities/tools.go:110-349 | every arithmetic tree, printed and spaced in any way, evaluates to its value exactly if its parentheses nest at most 16 deep and no divisor is zero |
| `DagFailure.IndexNode` | internal/activities/dag_fallback.go:71-74 | adds one plan node to the dependents of everything it depends on |
| `DagFailure.BuildDependents` | internal/activities/dag_fallback.go:69-75 | the finished index lists the dependents of every node in plan order |
| `DagFailure.DependentsExact` | internal/activities/dag_fallback.go:69-75 | and these are exactly the nodes that depend on it directly |
| `DagFailure.RoundSound` | internal/activities/dag_fallback.go:118-144 | every round of the queue loop keeps the search sound and explored, and makes progress on any graph |
| `DagFailure.SkipsExactlyReachable` | internal/activities/dag_fallback.go:112-144 | on every plan, cyclic ones included, exactly the nodes reachable from the failed one are skipped, itself excepted, each blamed on an affected direct dependency |
| `DagReports.StatusStore.CompletePlan` | internal/activities/dag_fallback.go:76-91 | the statuses read, with missing plan nodes and missing dependencies filled in |
| `DagReports.StatusStore.VisitDependents` | internal/activities/dag_fallback.go:122-143 | the inner loop marks and enqueues each dependent met for the first time, and no other |
| `DagReports.StatusStore.Propagate` | internal/activities/dag_fallback.go:112-144 | the queue loop ends with the failed node and exactly the reachable ones marked |
| `DagReports.StatusStore.CountPhases` | internal/activities/dag_fallback.go:170-182 | the counters are the numbers of completed, failed and skipped nodes, in whatever order the map is walked |
| `DagReports.StatusStore.EmitAll` | internal/activities/dag_fallback.go:202-219 | the events of a report in order, less those whose append failed |
| `DagReports.StatusStore.HandleNodeFailure` | internal/activities/dag_fallback.go:40-227 | stored statuses, entries that do not parse, counters, events and answer after a report whose read or write may fail, the write part way |
| `DagReports.SkipsAnnouncedExactly` | internal/activities/dag_fallback.go:202-219 | the events of a report name as skipped exactly the other nodes reachable from the failed one, each once, but for failed appends |
| `DagReports.CountersDescribeStoreIff` | internal/activities/dag_fallback.go:50-198 | the counters written describe the stored statuses exactly if the store could be read or holds nothing outside the plan and the failed node |
| `DagReports.CountsAddUp` | internal/activities/dag_fallback.go:170-214 | completed, failed, skipped and open nodes make up the plan, so the reported remainder is the number still open |
| `DagReports.OthersKeepTheirStatus` | internal/activities/dag_fallback.go:112-144 | nodes neither failed nor reachable keep phase, error, output and times |
| `DagReports.ReportKeepsClosed` | internal/activities/dag_fallback.go:76-168 | a report that reads and writes completely never leaves a dependent of a failed or skipped node open |
| `DagEffects.BlameIsNearest` | internal/activities/dag_fallback.go:112-143 | on every plan the breadth-first search blames each skip on a node right before it on a shortest walk from the failed one |
| `DagEffects.ReportStores` | internal/activities/dag_fallback.go:56-168 | a report read and written completely stores the failed node as failed with its text, every other node reachable from it as skipped and blamed on such a node, all with its time; the others keep phase, error and time, all keep id, output and start, and empty dependencies are filled in from the plan |
| `DagEffects.AttemptStores` | internal/activities/dag_fallback.go:44-168 | whatever fails: the computed status where the write got through, the stored one elsewhere |
| `DagEffects.ReportCounts` | internal/activities/dag_fallback.go:170-226 | counters and answer are the numbers of computed statuses in each phase, and the nodes downstream of the failed one |
| `DagEffects.ReportEvents` | internal/activities/dag_fallback.go:198-215 | the event of the failure, first, and the summary, last, say what happened |
| `DagRuns.AttemptClosedIff` | internal/activities/dag_fallback.go:50-168 | however its read and write go, a report leaves a dependent open exactly if its write stopped between a node it took down and the dependent, or its failed read made it forget the dependent of a node that stays down |
| `DagRuns.PartialWriteClosedIff` | internal/activities/dag_fallback.go:153-162 | a report that was read but only partly written leaves a dependent open exactly if it left out an open dependent of a node it wrote down |
| `DagRuns.RunDownIff` | internal/activities/dag_fallback.go:40-168 | after any sequence of reports, whatever failed, a node is failed or skipped exactly if a report took it down, or it was down before, and no later one forgot it |
| `DagRuns.RunClosedIff` | internal/activities/dag_fallback.go:40-168 | over any sequence of reports that could read the store, partial writes included, nothing that was down comes back, and a dependent is left open exactly if a node it depends on got written down and it never did |
| `DagRuns.RunStaysClosed` | internal/activities/dag_fallback.go:40-168 | so none is left open if every report is written completely sometime, by itself or by a retry |
| `DagRuns.RunTakesDownReachable` | internal/activities/dag_fallback.go:40-168 | everything reachable from a node reported anywhere in the sequence ends failed or skipped if its status got written and no later report forgets it |
| `DagRuns.PartialWriteLeavesOpen` | internal/activities/dag_fallback.go:153-162 | a chain of two of which the write reached the first |
| `DagRuns.FailedReadLeavesOpen` | internal/activities/dag_fallback.go:50-56 | a skipped node opened again by a report about another node |
| `DagRuns.CountersMissNode` | internal/activities/dag_fallback.go:50-198 | counters that do not describe the store |
| `DagReports.RetryReachesSameState` | internal/activities/dag_fallback.go:94-97 | retrying a report whose write got through for any part of the nodes reaches the state of one undisturbed report exactly if `FailedAtNs` is nonzero or the clock reads the same |
| `DagReports.FailedReadClosedIff` | internal/activities/dag_fallback.go:50-56 | exactly when a report that could not read the store still leaves no dependent open |
| `DagReports.ReadFailureForgets` | internal/activities/dag_fallback.go:50-56 | such a report erases the phase of every plan node it does not affect |
| `Ingestion.BatchesPartition` | internal/activities/ingestion.go:217-227 | the batches are the points in order, none empty, none above 20, only the last below |
| `Ingestion.Stores.Upsert` | internal/activities/ingestion.go:224-226 | one request; if it fails, any part of it may have been stored |
| `Ingestion.Stores.UpsertBatches` | internal/activities/ingestion.go:217-227 | the requests sent and the points stored, up to the batch that fails |
| `Ingestion.Stores.UpdateChunkStatus` | internal/db/documents.go:244-254 | exactly the row with that id becomes indexed, with its point id |
| `Ingestion.Stores.MarkChunks` | internal/activities/ingestion.go:229-235 | the rows marked, up to the update that fails, which may have been applied |
| `Ingestion.Stores.ListPendingChunks` | internal/db/documents.go:257-288 | the pending list of a document |
| `Ingestion.PendingListed` | internal/db/documents.go:257-288 | which is every pending row of the document once, ordered by chunk index, however the rows are stored |
| `Ingestion.Stores.EmbedAndUpsertChunks` | internal/activities/ingestion.go:165-238 | both stores, the requests and the result of a run that may stop at any step |
| `Ingestion.RunEffect` | internal/activities/ingestion.go:165-238 | every run, wherever it stops, marked some pending chunks and stored some of their points, and marked none before it had stored all |
| `Ingestion.RunKeepsConsistent` | internal/activities/ingestion.go:217-235 | at every stopping point, a chunk marked indexed has the point of its own content under its own id |
| `Ingestion.CrashThenRetry` | internal/activities/ingestion.go:165-238 | a crash anywhere and one clean run end in the stores of a single clean run |
| `Ingestion.RetriesReachCleanState` | internal/activities/ingestion.go:165-238 | the same after any number of failed attempts |
| `Ingestion.CleanRunIndexesAll` | internal/activities/ingestion.go:229-237 | a clean run leaves no chunk pending and reports how many it indexed |
| `Ingestion.CleanRunStores` | internal/activities/ingestion.go:183-236 | after a clean run, field by field: each chunk that was pending is marked with its own id and has the vector of its own content and its own data stored under it, and no other row or point is touched |
| `Ingestion.FailedUpsertStores` | internal/activities/ingestion.go:203-222 | an upsert that fails leaves no row marked and stored exactly the points of the batches of twenty before it and those of its own that got through |
| `Ingestion.FailedMarkMarks` | internal/activities/ingestion.go:224-236 | a status update that fails leaves every point stored and exactly the chunks before it marked, and its own if it was applied |
| `Ingestion.RunReports` | internal/activities/ingestion.go:165-238 | what a run reports under every fault, and that nothing changes before the first upsert |
| `Ingestion.CleanRunRequests` | internal/activities/ingestion.go:203-222 | the requests of a clean run carry the chunks in order, twenty at a time |
| `EventStream.ReadByIdIsByPosition` | internal/redis/client.go:250-275 | reading above the remembered id continues at the reader's position, or at the oldest entry left |
| `EventStream.SendReplay` | internal/api/handler.go:502-512 | the replay sends everything present and remembers whether any of it was terminal |
| `EventStream.ReadAfter` | internal/redis/client.go:257-274 | the live entries above an id, in order |
| `EventStream.SendUntilTerminal` | internal/api/handler.go:539-547 | a batch is sent up to and including its first terminal event |
| `EventStream.FollowOnce` | internal/api/handler.go:518-548 | one pass of the endless loop: cancelled, failed, idle or answered |
| `EventStream.FollowRounds` | internal/api/handler.go:514-548 | the endless loop, for as many rounds as the environment grants |
| `EventStream.StreamTaskEvents` | internal/api/handler.go:495-548 | the handler over any number of rounds of appends, trimming and read results |
| `EventStream.ThroughTerminalExact` | internal/api/handler.go:556-563 | what is sent of a batch ends at its first terminal event and misses nothing if there is none |
| `EventStream.PlayedWellRead` | internal/api/handler.go:495-548 | over every run the reader sent log entries in order and at most once, and passed over only trimmed ones |
| `EventStream.ClientSeesLog` | internal/api/handler.go:495-548 | so the client sees strictly increasing ids, lacks exactly what was trimmed before it was read, and the stream ended on a terminal event exactly if the client got one |
| `EventStream.NoTrimNoGaps` | internal/api/handler.go:495-548 | without trimming the client holds exactly a prefix of the stream |
| `EventStream.AnsweredReadCatchesUp` | internal/api/handler.go:525-548 | an answered read passes every entry, and ends the stream if a terminal one is among them |
| `StreamEnds.ReplayShows` | internal/api/handler.go:495-512 | the stream begins with a frame for every entry that is there, and ends at once if one of them is terminal |
| `StreamEnds.RoundShows` | internal/api/handler.go:514-563 | round by round: frames for what a read finds up to the first terminal entry, a ping for nothing, an error frame for a failed read, nothing once cancelled or stopped |
| `StreamEnds.StreamEndsIff` | internal/api/handler.go:495-548 | over every run: ends in an error, shown once it does, exactly if a read fails while it is followed; cancelled exactly if that happens while it is; still followed exactly if replay and reads went well and nothing shown was terminal |
| `BestPath.BuildIndex` | internal/activities/tot.go:211-214 | the node map, a later node of the same id winning |
| `BestPath.GetMaxDepth` | internal/activities/tot.go:257-265 | the loop computes the greatest depth |
| `BestPath.MaxDepthExact` | internal/activities/tot.go:257-265 | which is reached by some node, or zero |
| `BestPath.TraceBack` | internal/activities/tot.go:225-237 | the parent walk yields the path from the root end and its mean score |
| `BestPath.FindBestPath` | internal/activities/tot.go:205-255 | returns the path of the first terminal or deepest node with the highest mean, or the placeholder if no mean exceeds -1 |
| `BestPath.PathIsGenuine` | internal/activities/tot.go:225-236 | for any tree, above a node stands a chain of recorded parents from a node without a known parent, repeating nothing; the path repeats an id exactly if the chain passes the node's own, and if no later node has that id the chain includes the node |
| `BestPath.EndsIffNoCycle` | internal/activities/tot.go:228-236 | the parent walk ends exactly if it meets no known id twice |
| `BestPath.ShallowerParentsEnd` | internal/activities/tot.go:228-236 | with parents strictly shallower than children every walk ends |
| `BestPath.NonNegativeTreesHaveAPath` | internal/activities/tot.go:245-248 | with non-negative scores and depths the placeholder is never returned |
| `BestPath.CandidateIff` | internal/activities/tot.go:221-224 | paths are traced from exactly the terminal nodes and the deepest ones |
| `BestPath.MeanIsExact` | internal/activities/tot.go:225-237 | the confidence in a path times its length is the sum of the scores on it |
| `ModeRouter.RawScoreMonotone` | internal/activities/router_v2.go:307-319 | with non-negative weights, stronger capability signals never lower a mode's raw score |
| `ModeRouter.ScoreMonotone` | internal/activities/router_v2.go:304-352 | and never its score, through clamping, penalties and rounding |
| `ModeScores.RawScoreIs` | internal/activities/router_v2.go:304-327 | each signal counts with its own weight |
| `ModeScores.OwnScoreIs` | internal/activities/router_v2.go:304-352 | the score of a mode by itself: within bounds, less a tenth of its share of the budget and a twentieth of its share of the ceiling, in the nearest hundredth |
| `ModeScores.BoostsAddUp` | internal/activities/router_v2.go:239-285 | boosts lift an accepted candidate by what the request needs of its mode, up to the bound, and leave a rejected one alone |
| `ModeRouter.BoostedAllKeeps` | internal/activities/router_v2.go:239-285 | boosts keep scores in [0,1], touch nothing but scores and never a rejected candidate |
| `ModeRouter.BoostCap` | internal/activities/router_v2.go:244-250 | one boost in place |
| `ModeRouter.ExchangeSort` | internal/activities/router_v2.go:288-300 | the in-place double loop computes the exchange sort on values |
| `ModeRouter.ExchangeSortCorrect` | internal/activities/router_v2.go:286-300 | which yields a descending permutation, research first among ties where ties count |
| `ModeRouter.ExchangeSortNotStable` | internal/activities/router_classifier.go:546-553 | two equal candidates and a better one behind them come back with the two exchanged |
| `ModeRouter.ScoreModes` | internal/activities/router_v2.go:226-302 | scores, boosts and sorts the ten modes in place as specified |
| `ModeRouter.ScoreModesCorrect` | internal/activities/router_v2.go:226-302 | the result is a permutation of the ten modes with scores in [0,1], descending, research first among ties |
| `ModeRouter.LiftFirst` | internal/activities/router_v2.go:780-785 | lifts the first candidate of the legacy mode and no other |
| `ModeRouter.SelectPlannedMode` | internal/activities/router_v2.go:765-826 | candidate list, selected mode and explanation, cost, latency and async flag included, with the classifier inactive |
| `ModeRouter.RankedCorrect` | internal/activities/router_v2.go:765-794 | after lift and second sort the list still is such a permutation, descending |
| `ModeScores.RankedExplained` | internal/activities/router_v2.go:226-794 | every candidate of the final list has the score that weights, penalties, needs and the lift of the older rules give its mode |
| `ModeScores.ReasonIs` | internal/activities/router_v2.go:354-396 | of several reasons to reject it, a candidate of the final list gives what the user withholds before latency, and latency before cost |
| `ModeScores.SelectionReports` | internal/activities/router_v2.go:809-821 | cost, latency, async flag and reason reported are those of the selected mode |
| `ModeRouter.SelectionIsBestAccepted` | internal/activities/router_v2.go:809-821 | the selected mode is a non-rejected candidate of maximal score, or direct_answer when all are rejected |
| `ModeRouter.RejectedIffNotAdmitted` | internal/activities/router_v2.go:354-395 | through boosts, lift and both sorts every candidate of the final list keeps the verdict, the last applicable reason and the cost of its own mode: rejected exactly if its estimates exceed the budget or the ceiling of the signals, or its capability is required but not allowed |
| `ModeRouter.SelectionIsAdmitted` | internal/activities/router_v2.go:765-826 | the mode selected by score, where no keyword short-circuits the scoring, is one the rejection rules let pass whenever there is one; otherwise it is direct_answer |
| `ModeRouter.ExplanationGaps` | internal/activities/router_v2.go:809-826 | the explanation names a mode exactly if some candidate was accepted; its claim about complete rejection is untrue exactly if the first accepted candidate is direct_answer |
| `ModeRouter.BlameIsTrueIff` | internal/activities/router_v2.go:765-826 | in terms of the signals: the claim is true exactly unless the rejection rules let direct_answer pass and no mode before it in the list |
| `ModeRouter.BlameByScore` | internal/activities/router_v2.go:765-826 | it is true if a mode that is let pass outscores direct_answer, and untrue if direct_answer is let pass and outscores all others that are |
| `ModeRouter.BlamedThoughAccepted` | internal/activities/router_v2.go:823-826 | a request for which nothing is rejected, direct_answer is selected on its score, and complete rejection is claimed |
| `ModePermissions.NeverSelectsForbiddenIff` | internal/activities/router_v2.go:376-391 | where no keyword short-circuits the scoring: under every policy and legacy mode the selected mode is one the user allows, exactly if the request requires every capability the user withholds |
| `ModePermissions.ForbiddenModeSelected` | internal/activities/router.go:346-358 | a request with research withheld for which research is selected |
| `ModePermissions.AlwaysAsAskedIff` | internal/activities/router_v2.go:56-395 | where no keyword short-circuits the scoring: under every policy that lets some mode pass the selected one keeps to the user's budget, stated ceiling and permissions, exactly if no ceiling below thirty seconds is stated and nothing withheld that is not required |
| `ModePermissions.CeilingIgnored` | internal/activities/router_v2.go:56 | a stated ceiling of one second under which a mode that takes thirty is selected |
| `ModeArbiter.BuildKeywordCandidates` | internal/activities/router_v2.go:573-611 | the list behind a keyword: the pick and one fallback, neither ever rejected |
| `ModeArbiter.Arbitrate` | internal/activities/router_v2.go:974-1000 | the mode and the list after the classifier's answer |
| `PlanningLaw.KeywordListIs` | internal/activities/router_v2.go:573-611 | behind a keyword stand its pick at 0.85 and, by a fixed table, a second mode at 0.40, neither judged |
| `PlanningLaw.ArbitratedAnswers` | internal/activities/router_v2.go:974-1000 | the mode after any answer: the selected one if the answer is a fallback or names another mode than a selected sandbox; else that of a candidate that leads once every score is moved towards the answer's, unless it was rejected |
| `ModeArbiter.OutcomesIff` | internal/activities/router_v2.go:974-1000 | on every sorted list the modes some answer brings about are exactly the selected one, those of accepted candidates less than two thirds behind the first, and an accepted first one's |
| `ModeArbiter.OutcomeIsAdmitted` | internal/activities/router_v2.go:765-1000 | on scored lists: whatever the classifier says, the outcome is the router's own selection or the accepted candidate with the highest blended score, never a mode the rules reject while they let any pass |
| `ModeArbiter.OutcomesAdmittedIff` | internal/activities/router_v2.go:573-1000 | on both kinds of list: no answer brings about a mode the rules reject exactly if, on a scored list, they let any mode pass, and behind a keyword, they let both the pick and its fallback pass |
| `ModeArbiter.SandboxStaysIff` | internal/activities/router_v2.go:974-1000 | a selected sandbox survives every answer exactly if every other accepted candidate of the list it is given, scored or behind a keyword, is two thirds or more behind the first; behind a keyword it never does |
| `ModeArbiter.SandboxGivenUp` | internal/activities/router_v2.go:974-1000 | a request whose sandbox is given up under an answer that names no mode |
| `ModePlanning.CheckClassifierConditions` | internal/activities/router_classifier.go:398-516 | the first reason to ask the classifier, counted over the candidates |
| `PlanningLaw.TriggerIs` | internal/activities/router_classifier.go:398-516 | which of nine reasons is given, each spelled out: the first that speaks for asking |
| `ModePlanning.ApplyClassifier` | internal/activities/router_v2.go:864-1000 | the mode after the review, the conditions on switches, rejected candidates, budget and stated ceiling included |
| `PlanningLaw.HeardIff` | internal/activities/router_v2.go:684-919 | when the classifier is heard, on a scored list or behind a keyword |
| `PlanningLaw.PlanAnswers` | internal/activities/router_v2.go:622-1000 | the planned mode for every answer, from the picked mode and whether the classifier is heard |
| `ModePlanning.PlanMode` | internal/activities/router_v2.go:622-857 | the planned mode of every request: a keyword's pick, reviewed unless constrained, or the scored selection, reviewed |
| `ModePlanning.PlannedIff` | internal/activities/router_v2.go:622-1000 | with all but the answer given, the modes that can be planned are exactly the picked one and, if the classifier is heard, those within its reach |
| `ModePlanning.KeywordPlannedIff` | internal/activities/router_v2.go:573-698 | behind a keyword these are its pick and, if the classifier is heard, the fallback put behind it |
| `ModePlanning.HeardBehindKeywordIff` | internal/activities/router_v2.go:684-919 | behind a keyword the classifier is heard exactly if it is on, has a reason, and the pick is allowed and within the budget and both ceilings, stated and raised |
| `ModePlanning.NeverPlansForbiddenIff` | internal/activities/router.go:350-353 | whatever the policy, the classifier and its answer, no mode the user forbids is planned exactly if: without a keyword, the request requires all the user withholds; behind one, the user allows its pick and the fallback put behind it |
| `ModePlanning.AlwaysPlansAsAskedIff` | internal/activities/router_v2.go:622-1000 | whatever the policy, the classifier and its answer, users get their budget, stated ceiling and permissions while some mode is let pass, exactly if no keyword matches, no ceiling below thirty seconds is stated and nothing withheld that is not required |
| `ModePlanning.KeywordTriggersIff` | internal/config/router_policy.go:338-364 | behind a keyword the shipped settings give a reason to ask for every pick but tools and workflows, and for these exactly if citations, a sandbox, research on next to no budget or much semantic complexity are in play |
| `ModePlanning.SandboxRunsIff` | docs/superpowers/plans/HighLevelRouter.md:163-169 | a request a keyword sends to the sandbox is executed there whatever the classifier answers, exactly if the sandbox is allowed and required and the classifier is not heard |
| `ModePlanning.KeywordPlanForbidden` | docs/superpowers/plans/HighLevelRouter.md:169 | such a request, let pass by the rules, for which the shipped classifier without naming a mode gets the tool mode planned, which the rules reject and the user forbids |
| `ModePlanning.KeywordOverridesUser` | internal/activities/router_v2.go:690-710 | a request with the sandbox withheld and required for which every policy, classifier and answer leave the sandbox planned |
| `ModePlanning.KeywordOverBudget` | docs/superpowers/plans/HighLevelRouter.md:165 | a debate at two dollars is planned on a budget of one |
| `ModeExecution.ShippedAsPlannedIff` | internal/activities/router.go:661-718 | as shipped, the executed mode is the planned one exactly if that is switched on, allowed by the user, and called for by the request; workflows take tools |
| `PlanningLaw.ExecutionTells` | internal/activities/router.go:661-791 | what is executed, and why, under every table: the planned mode if its flag is on, the user allows it and the request calls for it; else what its entry names, or a direct answer or nothing; but no sandbox the user withholds |
| `PlanningLaw.ApprovalIff` | internal/activities/router.go:432-510 | exactly when the decision requires an approval |
| `ModeExecution.WorkflowGivenUp` | internal/activities/router.go:697-701 | a workflow the selection takes as allowed that is not executed for want of tools |
| `ModeExecution.AlwaysBlamesRightlyIff` | internal/activities/router.go:643-718 | whatever is planned, with any flags and table, the user is blamed for a fallback exactly when in its way, exactly if the request requires everything the user allows, and the knowledge base |
| `ModeExecution.AllowedModeBlamed` | internal/activities/router.go:703-706 | a user who allows everything is blamed |
| `ModeExecution.KeepsPermissionsIff` | internal/activities/router.go:661-765 | a fallback table never gets anything forbidden executed, research of either version included, for any request and plan, exactly if no entry ever looked up leads to the tool mode, or to a version of research but from disabled research |
| `ModeExecution.KeepsFeaturesIff` | internal/activities/router.go:661-750 | and never a mode that is switched off, exactly if every entry the flags make one look up leads to a mode that is on |
| `ModeExecution.SandboxIsGuarded` | internal/activities/router.go:430-508 | under every table a sandbox is only executed with the user's permission and an approval; and only if planned and required, exactly if no entry ever looked up leads to it |
| `ModeExecution.KeepsApprovalsIff` | internal/activities/router.go:430-508 | every risky decision requires an approval exactly if no entry ever looked up leads to the sandbox, since taking a sandbox back drops the approval |
| `ModeExecution.ShippedIsSafe` | internal/config/router_policy.go:318-329 | as shipped, nothing forbidden is ever executed, no version of research either, whatever was planned, nor a sandbox not planned or not required, and no risky decision goes without an approval |
| `ModeExecution.ShippedKeepsFeaturesIff` | internal/config/router_policy.go:318-329 | as shipped, no disabled mode is ever executed exactly if reflection is on, or both tree of thoughts and debate are |
| `ModeExecution.DisabledModeExecuted` | internal/config/router_policy.go:318-329 | with reflection and tree of thoughts both off, a planned reflection runs a tree of thoughts |
| `ModeRouter.MergeLLMScores` | internal/activities/router_classifier.go:522-555 | blends and sorts in place as specified |
| `ModeRouter.MergeCorrect` | internal/activities/router_classifier.go:522-555 | whatever the LLM says, the merged list keeps the modes, stays in [0,1] and is descending; without LLM scores it is unchanged |
| `ModeRouter.MergeMoves` | internal/activities/router_classifier.go:526-545 | merging moves each score two fifths of the way to the LLM's, one outside [0,1] counting like the nearer bound, and leaves those of modes it does not name |
| `ModeRouter.LeadIsSafeIff` | internal/activities/router_classifier.go:526-545 | one candidate stays above another under every LLM answer exactly if its heuristic lead exceeds 2/3 |
| `ModeRouter.SafeLeadRanksAhead` | internal/activities/router_classifier.go:522-555 | and then it stands before the other in the merged list |
| `MergeStability.SortIsSelection` | internal/activities/router_classifier.go:547-553 | the exchange sort is repeated selection of the first best, each displaced candidate taking the place of the next record |
| `MergeStability.SortTurns` | internal/activities/router_classifier.go:547-553 | what sorting does to the candidates of one score: each better candidate turns those in front of it by one place |
| `MergeStability.TurnsCancel` | internal/activities/router_classifier.go:547-553 | such turns restore the order exactly if those of every size make whole rounds |
| `MergeStability.StableIffWholeRounds` | internal/activities/router_classifier.go:546-553 | the sort is stable exactly if, for every score and every m > 0, the number of better candidates standing behind exactly m of that score is a multiple of m |
| `MergeStability.MergeStableIff` | internal/activities/router_classifier.go:522-555 | the merged list keeps ties in incoming order exactly under that condition on the blended list |
| `HookRuntime.HookResult.constructor` | internal/hooks/runtime.go:165-175 | a fresh result lets the event through |
| `HookRuntime.Runtime.ApplyBlockingDecision` | internal/hooks/runtime.go:353-372 | the result after a refusal: suppressed, or enforced |
| `HookRuntime.Runtime.ApplyBlockingFailure` | internal/hooks/runtime.go:375-401 | the result after a failure: ignored, suppressed, enforced under fail-closed, recorded under fail-open |
| `HookRuntime.Runtime.RunPermissionCheck` | internal/hooks/runtime.go:239-266 | refuses exactly the tools missing from a non-empty allowlist |
| `HookRuntime.Runtime.ExecuteInternal` | internal/hooks/runtime.go:195-235 | the result of each internal handler |
| `HookRuntime.Runtime.ExecuteHttp` | internal/hooks/runtime.go:270-348 | the result for each way an HTTP handler can react |
| `HookRuntime.Runtime.ExecuteHandler` | internal/hooks/runtime.go:163-192 | the result of any handler, unsupported schemes included |
| `HookRuntime.Runtime.ExecuteAll` | internal/hooks/runtime.go:107-131 | results of the matching handlers in order, both flags, and the first enforced result |
| `HookRuntime.Runtime.CollectWarnings` | internal/hooks/runtime.go:148-153 | the non-empty warnings in order |
| `HookRuntime.Runtime.EmitAndExecute` | internal/hooks/runtime.go:60-160 | the whole decision, guards first |
| `HookOutcomes.MatchesIffConcerned` | internal/hooks/filter.go:24-101 | an event concerns a registration exactly if its payload has the text asked for under each of seven keys, and one of the texts asked for under the eighth; other keys do not count |
| `HookOutcomes.ExecutedTells` | internal/hooks/runtime.go:163-401 | every result, field by field, from what the handler did, told by URL, reply and payload, and from whether that stops the event |
| `HookOutcomes.VerdictTells` | internal/hooks/runtime.go:60-160 | the whole decision: the guards, one result for each registration concerned, in order, and the first that stops the event named |
| `HookRuntime.EnforcedIffBlocks` | internal/hooks/runtime.go:163-401 | a result is enforced exactly if a blocking registration refuses, or fails loudly under fail-closed, while blocking is on |
| `HookRuntime.DeniedExactly` | internal/hooks/runtime.go:60-401 | denied exactly if hooks are on, no guard fires, the list could be read and some matching registration blocks; the first one that does is named, with the code and reason its failure or refusal gives |
| `HookRuntime.FailClosedExactly` | internal/hooks/runtime.go:218-233 | under fail-closed a failing blocking handler stops the event exactly if its failure is not one of the quiet kinds |
| `HookRuntime.UnknownHandlerLetsThrough` | internal/hooks/runtime.go:218-233 | a blocking registration with an unknown internal handler that lets an event through |
| `HookRuntime.NonBlockingDoNotMatter` | internal/hooks/runtime.go:107-146 | deleting every non-blocking registration changes neither verdict nor attribution nor the blocking flags |

## Left out

- Transport and encoding: HTTP, SQL, Redis commands, Temporal, JSON, UUIDs, logging. Failures of these appear as parameters.
- Floating point rounding, NaN and infinities: scores, vectors and calculator values are reals. `formatResult` and literals too large for `ParseFloat` are not modelled.
- Mutexes: each cache method is one atomic step, which is what the locks provide.
- Sharing of vectors between a cached embedding and the result handed to the first caller: results are values here.
- `EmbedBatch` and the latency field of embeddings.
- EmbeddingService.CacheRefinesBackend: asks for unambiguous keys rather than for model names without a colon; UnambiguousWithoutColonExtension covers those names and more.
- The estimate without any token cache configured, and a stored level-2 count that is not a number (it reads as a miss).
- A counter increment that Redis refuses: counters are conserved only if every increment arrives.
- Expiry of level 2 is at the end of its lifetime or earlier: the store may drop entries at any time, so eviction by Redis is covered.
- The expiry of the DAG keys, and the trimming of the event stream when DAG events are appended.
- DAG visual counters (`internal/activities/dag_visual.go`).
- TokenCalls.CachedAnswerProvenance: the bound includes the longest backfill delay, which StalenessBoundIsTight shows to be needed, for calls made one after the other too.
- Ingestion runs that use different embedding models or collections, and other writers of the same rows.
- The SQL of documents other than the two chunk queries; `ChunkDocumentActivity` and document statuses.
- The checks in front of the event stream (task id, flushing support) and its response headers.
- BestPath.FindBestPath: requires that the parent walk ends from every candidate, since on a parent cycle the source never returns; EndsIffNoCycle says exactly when that is.
- The keyword lists: a keyword's pick is a parameter, and the theorems hold for every mode as a pick. The legacy kill switch, which bypasses the scoring. Signal extraction, addons, latency tiers, forbidden combinations and the contract sent to the frontend.
- The prompt and the transport of the LLM classifier: its answer is a parameter, or missing. Its switches count as one.
- Of a routing decision: model tier, token budget, addons and the texts of its reasons.
- ModeRouter.SelectPlannedMode: holds for every legacy mode; which one the keywords and thresholds of the legacy if/else chain pick is not modelled.
- Audit logging of hooks, handler timeouts (a timeout is an HTTP call without a reply) and the sleep of the test handler.
- Failures to encode an event or to create a request count as HTTP calls without a reply; they reach the same rule with their own message.
- Task and approval status updates, the workflows that order the activities, UI, MCP and sandbox processes.
