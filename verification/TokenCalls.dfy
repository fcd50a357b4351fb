/** Any number of estimate calls in flight at once. One step of one call is one atomic access
    to level 1, to level 2, to a counter, or to the tokenizer; steps of different calls
    interleave freely, each with its own reading of a clock that never runs backwards.
 */
module TokenCalls {
  import opened Wrappers
  import opened RecencyList
  import opened CacheKeys
  import opened TokenCache

  /** A cached count and when it was read. */
  datatype Found = Found(count: int, at: int)

  /** Where a call stands: what it is about to do. */
  datatype Pc =
    | ReadingL1
    | CountingLocalHit(found: Found)
    | ReadingL2
    | Backfilling(found: Found)
    | CountingRedisHit(found: Found)
    | CountingHit(source: Source, found: Found)
    | CountingMiss
    | Tokenizing
    | CountingCall(count: int, source: Source)
    | WritingL1(count: int, source: Source)
    | WritingL2(count: int, source: Source)
    | Done(answer: Answer, readAt: int)

  datatype Call = Call(request: Request, pc: Pc)

  /** One write of one Set: the count stored under the key, and when. */
  datatype Event = Event(key: string, request: Request, count: int, at: int)

  /** `lag` is the longest delay so far between a level-2 read and the backfill it leads to. */
  datatype State = State(store: Store, calls: map<nat, Call>, events: set<Event>, clock: int, lag: nat)

  datatype Action =
    | Begin(id: nat, request: Request, now: int)
    | Advance(id: nat, now: int, env: Env)
    | Forget(key: string)

  const INITIAL := State(Store([], map[], NO_STATS), map[], {}, 0, 0)

  /** What one step of a call does: the store it leaves, where it goes on, how long its refill had
      to wait, and what it wrote. */
  datatype Effect = Effect(store: Store, pc: Pc, delay: int, written: set<Event>)

  function Plain(store: Store, pc: Pc): Effect {
    Effect(store, pc, 0, {})
  }

  function EffectOf(c: Settings, store: Store, call: Call, now: int, env: Env): Effect
    requires 0 < c.capacity
  {
    var key := KeyOf(c, call.request);
    match call.pc
    case ReadingL1 =>
      var (store', found) := ReadL1(c, store, key, now);
      Plain(store', if found.Some? then CountingLocalHit(Found(found.value, now)) else ReadingL2)
    case CountingLocalHit(found) => Plain(CountLocalHit(c, store), CountingHit(LocalLru, found))
    case ReadingL2 =>
      var found := ReadL2(c, store, key, now, env.readOk);
      Plain(store, if found.Some? then Backfilling(Found(found.value, now)) else CountingMiss)
    case Backfilling(found) =>
      Effect(WriteL1(c, store, key, found.count, now), CountingRedisHit(found), now - found.at, {})
    case CountingRedisHit(found) => Plain(CountRedisHit(c, store), CountingHit(Redis, found))
    case CountingHit(source, found) => Plain(CountHit(c, store), Done(Answer(found.count, true, source), found.at))
    case CountingMiss => Plain(CountMiss(c, store), Tokenizing)
    case Tokenizing =>
      Plain(store, if env.tokenized.Some? then CountingCall(env.tokenized.value, PythonService)
                   else CountingCall(Fallback(call.request.text), FallbackEstimate))
    case CountingCall(count, source) => Plain(CountCall(c, store, source == PythonService), WritingL1(count, source))
    case WritingL1(count, source) =>
      Effect(WriteL1(c, store, key, count, now), WritingL2(count, source), 0, {Event(key, call.request, count, now)})
    case WritingL2(count, source) =>
      Effect(WriteL2(c, store, key, count, now, env.writeOk), Done(Answer(count, false, source), now), 0,
             if c.connected && env.writeOk then {Event(key, call.request, count, now)} else {})
    case Done(_, _) => Plain(store, call.pc)
  }

  function Longer(lag: nat, delay: int): nat {
    if delay > lag then delay else lag
  }

  function Applied(s: State, id: nat, e: Effect): State
    requires id in s.calls
  {
    s.(store := e.store, calls := s.calls[id := s.calls[id].(pc := e.pc)], lag := Longer(s.lag, e.delay),
       events := s.events + e.written)
  }

  /** One step of call `id`. */
  function Move(c: Settings, s: State, id: nat, now: int, env: Env): State
    requires 0 < c.capacity && id in s.calls
  {
    Applied(s, id, EffectOf(c, s.store, s.calls[id], now, env))
  }

  /** Which counts the tokenizer may answer for a request. */
  type Tokenizer = (Request, int) -> bool

  predicate Enabled(tokenizer: Tokenizer, s: State, a: Action) {
    match a
    case Begin(id, _, now) => id !in s.calls && s.clock <= now
    case Advance(id, now, env) =>
      && id in s.calls && s.clock <= now
      && (s.calls[id].pc.Tokenizing? && env.tokenized.Some? ==> tokenizer(s.calls[id].request, env.tokenized.value))
    case Forget(_) => true
  }

  /** The level-2 store may drop any entry at any time. */
  function Next(c: Settings, tokenizer: Tokenizer, s: State, a: Action): State
    requires 0 < c.capacity && Enabled(tokenizer, s, a)
  {
    match a
    case Begin(id, r, now) => s.(calls := s.calls[id := Call(r, ReadingL1)], clock := now)
    case Advance(id, now, env) => Move(c, s, id, now, env).(clock := now)
    case Forget(key) => s.(store := s.store.(l2 := s.store.l2 - {key}))
  }

  /** `trace` is a sequence of enabled actions from the empty state to `s`. */
  ghost predicate Reached(c: Settings, tokenizer: Tokenizer, trace: seq<Action>, s: State)
    requires 0 < c.capacity
  {
    if trace == [] then s == INITIAL
    else
      var last := trace[|trace| - 1];
      exists before :: Reached(c, tokenizer, trace[..|trace| - 1], before) && Enabled(tokenizer, before, last)
        && s == Next(c, tokenizer, before, last)
  }

  // ---------- provenance and staleness ----------

  /** Some write stored this count under this key, no later than `until` and at most `limit` before it. */
  ghost predicate Explained(events: set<Event>, key: string, count: int, until: int, limit: int) {
    exists e :: e in events && e.key == key && e.count == count && e.at <= until <= e.at + limit
  }

  ghost predicate PcExplained(c: Settings, s: State, id: nat)
    requires id in s.calls
  {
    var key := KeyOf(c, s.calls[id].request);
    match s.calls[id].pc
    case CountingLocalHit(f) => Explained(s.events, key, f.count, f.at, c.l1Ttl + c.l2Ttl + s.lag)
    case Backfilling(f) => Explained(s.events, key, f.count, f.at, c.l2Ttl)
    case CountingRedisHit(f) => Explained(s.events, key, f.count, f.at, c.l2Ttl)
    case CountingHit(_, f) => Explained(s.events, key, f.count, f.at, c.l1Ttl + c.l2Ttl + s.lag)
    case Done(a, at) => a.cached ==> Explained(s.events, key, a.count, at, c.l1Ttl + c.l2Ttl + s.lag)
    case _ => true
  }

  ghost predicate AllExplained(c: Settings, s: State) {
    && (forall e :: e in s.store.l1 ==>
          Explained(s.events, e.key, e.value.count, e.value.expireAt, c.l1Ttl + c.l2Ttl + s.lag))
    && (forall k :: k in s.store.l2 ==> Explained(s.events, k, s.store.l2[k].count, s.store.l2[k].expireAt, c.l2Ttl))
    && (forall id :: id in s.calls ==> PcExplained(c, s, id))
    && (forall e :: e in s.events ==> e.key == KeyOf(c, e.request) && e.at <= s.clock)
  }

  lemma ExplainedWeaker(events: set<Event>, events': set<Event>, key: string, count: int, until: int, limit: int,
                        until': int, limit': int)
    requires Explained(events, key, count, until, limit) && events <= events'
    requires until' - until <= limit' - limit
    requires until <= until' || forall e :: e in events ==> e.at <= until'
    ensures Explained(events', key, count, until', limit')
  {
    var e :| e in events && e.key == key && e.count == count && e.at <= until <= e.at + limit;
    assert e in events';
  }

  /** Calls that did not move stay explained when events and lag grow. */
  lemma OthersExplained(c: Settings, s: State, s': State, id: nat)
    requires id in s.calls && id in s'.calls && s'.calls[id] == s.calls[id]
    requires s.events <= s'.events && s.lag <= s'.lag && PcExplained(c, s, id)
    ensures PcExplained(c, s', id)
  {
    var key := KeyOf(c, s.calls[id].request);
    var wide, wide' := c.l1Ttl + c.l2Ttl + s.lag, c.l1Ttl + c.l2Ttl + s'.lag;
    match s.calls[id].pc
    case CountingLocalHit(f) => ExplainedWeaker(s.events, s'.events, key, f.count, f.at, wide, f.at, wide');
    case Backfilling(f) => ExplainedWeaker(s.events, s'.events, key, f.count, f.at, c.l2Ttl, f.at, c.l2Ttl);
    case CountingRedisHit(f) => ExplainedWeaker(s.events, s'.events, key, f.count, f.at, c.l2Ttl, f.at, c.l2Ttl);
    case CountingHit(_, f) => ExplainedWeaker(s.events, s'.events, key, f.count, f.at, wide, f.at, wide');
    case Done(a, at) => if a.cached { ExplainedWeaker(s.events, s'.events, key, a.count, at, wide, at, wide'); }
    case _ =>
  }

  /** Writing an explained count into level 1 keeps level 1 explained. */
  lemma L1WriteExplained(c: Settings, s: State, key: string, count: int, now: int, events': set<Event>, lag': nat)
    requires 0 < c.capacity && AllExplained(c, s) && s.events <= events' && s.lag <= lag'
    requires Explained(events', key, count, now + c.l1Ttl, c.l1Ttl + c.l2Ttl + lag')
    ensures forall e :: e in WriteL1(c, s.store, key, count, now).l1 ==>
              Explained(events', e.key, e.value.count, e.value.expireAt, c.l1Ttl + c.l2Ttl + lag')
  {
    var l1 := WriteL1(c, s.store, key, count, now).l1;
    FindIffKey(s.store.l1, key);
    WithoutMembers(s.store.l1, key);
    forall e | e in l1
      ensures Explained(events', e.key, e.value.count, e.value.expireAt, c.l1Ttl + c.l2Ttl + lag')
    {
      if e in s.store.l1 {
        ExplainedWeaker(s.events, events', e.key, e.value.count, e.value.expireAt, c.l1Ttl + c.l2Ttl + s.lag,
                        e.value.expireAt, c.l1Ttl + c.l2Ttl + lag');
      }
    }
  }

  /** The two levels after a step of one call. */
  lemma LevelsExplained(c: Settings, s: State, id: nat, now: int, env: Env)
    requires 0 < c.capacity && id in s.calls && 0 <= c.l1Ttl && 0 <= c.l2Ttl
    requires AllExplained(c, s) && s.clock <= now
    ensures var s' := Move(c, s, id, now, env);
            && (forall e :: e in s'.store.l1 ==>
                  Explained(s'.events, e.key, e.value.count, e.value.expireAt, c.l1Ttl + c.l2Ttl + s'.lag))
            && (forall k :: k in s'.store.l2 ==>
                  Explained(s'.events, k, s'.store.l2[k].count, s'.store.l2[k].expireAt, c.l2Ttl))
            && (forall e :: e in s'.events ==> e.key == KeyOf(c, e.request) && e.at <= now)
            && s.events <= s'.events && s.lag <= s'.lag
  {
    var call, s' := s.calls[id], Move(c, s, id, now, env);
    var key := KeyOf(c, call.request);
    assert PcExplained(c, s, id);
    match call.pc
    case ReadingL1 =>
      FindIffKey(s.store.l1, key);
      WithoutMembers(s.store.l1, key);
    case Backfilling(f) =>
      ExplainedWeaker(s.events, s.events, key, f.count, f.at, c.l2Ttl, now + c.l1Ttl, c.l1Ttl + c.l2Ttl + s'.lag);
      L1WriteExplained(c, s, key, f.count, now, s.events, s'.lag);
    case WritingL1(count, source) =>
      var e := Event(key, call.request, count, now);
      assert e in s'.events;
      L1WriteExplained(c, s, key, count, now, s'.events, s'.lag);
      L2StillExplained(c, s, s'.events);
    case WritingL2(count, source) =>
      assert c.connected && env.writeOk ==> Event(key, call.request, count, now) in s'.events;
      L2StillExplained(c, s, s'.events);
      L1StillExplained(c, s, s'.events);
    case _ =>
  }

  lemma L2StillExplained(c: Settings, s: State, events': set<Event>)
    requires AllExplained(c, s) && s.events <= events'
    ensures forall k :: k in s.store.l2 ==> Explained(events', k, s.store.l2[k].count, s.store.l2[k].expireAt, c.l2Ttl)
  {
    forall k | k in s.store.l2 ensures Explained(events', k, s.store.l2[k].count, s.store.l2[k].expireAt, c.l2Ttl) {
      var v := s.store.l2[k];
      ExplainedWeaker(s.events, events', k, v.count, v.expireAt, c.l2Ttl, v.expireAt, c.l2Ttl);
    }
  }

  lemma L1StillExplained(c: Settings, s: State, events': set<Event>)
    requires AllExplained(c, s) && s.events <= events'
    ensures forall e :: e in s.store.l1 ==>
              Explained(events', e.key, e.value.count, e.value.expireAt, c.l1Ttl + c.l2Ttl + s.lag)
  {
    forall e | e in s.store.l1
      ensures Explained(events', e.key, e.value.count, e.value.expireAt, c.l1Ttl + c.l2Ttl + s.lag) {
      var wide := c.l1Ttl + c.l2Ttl + s.lag;
      ExplainedWeaker(s.events, events', e.key, e.value.count, e.value.expireAt, wide, e.value.expireAt, wide);
    }
  }

  /** The call that moved. */
  lemma MoverExplained(c: Settings, s: State, id: nat, now: int, env: Env)
    requires 0 < c.capacity && id in s.calls && 0 <= c.l1Ttl && 0 <= c.l2Ttl
    requires AllExplained(c, s) && s.clock <= now
    ensures PcExplained(c, Move(c, s, id, now, env), id)
  {
    var call, s' := s.calls[id], Move(c, s, id, now, env);
    var key := KeyOf(c, call.request);
    var wide := c.l1Ttl + c.l2Ttl + s.lag;
    assert PcExplained(c, s, id);
    match call.pc
    case ReadingL1 =>
      FindIffKey(s.store.l1, key);
      if s'.calls[id].pc.CountingLocalHit? {
        var v := Find(s.store.l1, key).value;
        assert Entry(key, v) in s.store.l1;
        ExplainedWeaker(s.events, s.events, key, v.count, v.expireAt, wide, now, wide);
      }
    case ReadingL2 =>
      if s'.calls[id].pc.Backfilling? {
        var v := s.store.l2[key];
        ExplainedWeaker(s.events, s.events, key, v.count, v.expireAt, c.l2Ttl, now, c.l2Ttl);
      }
    case CountingRedisHit(f) =>
      ExplainedWeaker(s.events, s.events, key, f.count, f.at, c.l2Ttl, f.at, wide);
    case _ =>
  }

  /** From every reachable state one can be reached in which level 2 has lost an entry, and nothing else is
      different. */
  lemma {:induction false} AnyEntryCanGo(c: Settings, tokenizer: Tokenizer, trace: seq<Action>, s: State,
                                         key: string)
    requires 0 < c.capacity && Reached(c, tokenizer, trace, s)
    ensures exists more :: Reached(c, tokenizer, more, s.(store := s.store.(l2 := s.store.l2 - {key})))
  {
    ReachedMore(c, tokenizer, trace, s, Forget(key));
  }

  /** `e` is a write that the store now holds: first in level 1, or in level 2. */
  ghost predicate JustWritten(c: Settings, store: Store, e: Event) {
    || (store.l1 != [] && store.l1[0] == Entry(e.key, Timed(e.count, e.at + c.l1Ttl)))
    || (e.key in store.l2 && store.l2[e.key] == Timed(e.count, e.at + c.l2Ttl))
  }

  /** No step forgets an event, and one that it adds is a write it made, for its own call, at its own time. */
  lemma EventsAreWrites(c: Settings, tokenizer: Tokenizer, s: State, a: Action, e: Event)
    requires 0 < c.capacity && Enabled(tokenizer, s, a)
    ensures var s' := Next(c, tokenizer, s, a);
            && s.events <= s'.events
            && (e in s'.events - s.events ==>
                  && a.Advance? && e.at == a.now && e.request == s.calls[a.id].request
                  && e.key == KeyOf(c, e.request) && JustWritten(c, s'.store, e))
  {
  }

  lemma StepExplained(c: Settings, tokenizer: Tokenizer, s: State, a: Action)
    requires 0 < c.capacity && 0 <= c.l1Ttl && 0 <= c.l2Ttl && Enabled(tokenizer, s, a) && AllExplained(c, s)
    ensures AllExplained(c, Next(c, tokenizer, s, a))
  {
    var s' := Next(c, tokenizer, s, a);
    match a
    case Begin(id, r, now) =>
      forall other | other in s'.calls ensures PcExplained(c, s', other) {
        if other != id { OthersExplained(c, s, s', other); }
      }
    case Advance(id, now, env) =>
      LevelsExplained(c, s, id, now, env);
      MoverExplained(c, s, id, now, env);
      forall other | other in s'.calls ensures PcExplained(c, s', other) {
        if other != id {
          OthersExplained(c, s, s', other);
        } else {
          OthersExplained(c, Move(c, s, id, now, env), s', id);
        }
      }
    case Forget(key) =>
      forall other | other in s'.calls ensures PcExplained(c, s', other) { OthersExplained(c, s, s', other); }
  }

  lemma {:induction false} ReachedExplained(c: Settings, tokenizer: Tokenizer, trace: seq<Action>, s: State)
    requires 0 < c.capacity && 0 <= c.l1Ttl && 0 <= c.l2Ttl && Reached(c, tokenizer, trace, s)
    ensures AllExplained(c, s)
  {
    if trace != [] {
      var last := trace[|trace| - 1];
      var before :| Reached(c, tokenizer, trace[..|trace| - 1], before) && Enabled(tokenizer, before, last)
        && s == Next(c, tokenizer, before, last);
      ReachedExplained(c, tokenizer, trace[..|trace| - 1], before);
      StepExplained(c, tokenizer, before, last);
    }
  }

  /** No two requests in use share a key. */
  ghost predicate Unambiguous(c: Settings, s: State) {
    forall e, id :: e in s.events && id in s.calls && e.key == KeyOf(c, s.calls[id].request) ==>
      e.request == s.calls[id].request
  }

  /** Under any interleaving, failures and evictions: a cached answer is a count that some earlier
      Set stored for that very model and text, read at most l1Ttl + l2Ttl after it was written, plus
      the longest delay any backfill of the run had between its two steps. */
  lemma {:induction false} CachedAnswerProvenance(c: Settings, tokenizer: Tokenizer, trace: seq<Action>, s: State,
      id: nat)
    requires 0 < c.capacity && 0 <= c.l1Ttl && 0 <= c.l2Ttl && Reached(c, tokenizer, trace, s)
    requires Unambiguous(c, s)
    requires id in s.calls && s.calls[id].pc.Done? && s.calls[id].pc.answer.cached
    ensures exists e :: e in s.events && e.request == s.calls[id].request && e.count == s.calls[id].pc.answer.count
              && 0 <= s.calls[id].pc.readAt - e.at <= c.l1Ttl + c.l2Ttl + s.lag
  {
    ReachedExplained(c, tokenizer, trace, s);
    assert PcExplained(c, s, id);
    var key, count, at := KeyOf(c, s.calls[id].request), s.calls[id].pc.answer.count, s.calls[id].pc.readAt;
    var e :| e in s.events && e.key == key && e.count == count && e.at <= at <= e.at + (c.l1Ttl + c.l2Ttl + s.lag);
    assert e.request == s.calls[id].request;
  }

  lemma UnambiguousWithoutCollisions(c: Settings, s: State)
    requires FixedLength(c.hash) && forall e :: e in s.events ==> e.key == KeyOf(c, e.request)
    requires CollisionFree(c.hash, (set e | e in s.events :: TokenPreimage(e.request.model, e.request.text)) +
                                   (set id | id in s.calls ::
                                     TokenPreimage(s.calls[id].request.model, s.calls[id].request.text)))
    ensures Unambiguous(c, s)
  {
    forall e, id | e in s.events && id in s.calls && e.key == KeyOf(c, s.calls[id].request)
      ensures e.request == s.calls[id].request
    {
      var r := s.calls[id].request;
      TokenKeyInjective(c.hash, e.request.model, e.request.text, r.model, r.text);
    }
  }

  // ---------- what counts can be ----------

  ghost predicate Plausible(tokenizer: Tokenizer, r: Request, count: int) {
    tokenizer(r, count) || count == Fallback(r.text)
  }

  ghost predicate CallPlausible(tokenizer: Tokenizer, call: Call) {
    match call.pc
    case CountingCall(count, _) => Plausible(tokenizer, call.request, count)
    case WritingL1(count, _) => Plausible(tokenizer, call.request, count)
    case WritingL2(count, _) => Plausible(tokenizer, call.request, count)
    case Done(a, _) => a.cached || Plausible(tokenizer, call.request, a.count)
    case _ => true
  }

  ghost predicate AllPlausible(tokenizer: Tokenizer, s: State) {
    && (forall e :: e in s.events ==> Plausible(tokenizer, e.request, e.count))
    && (forall id :: id in s.calls ==> CallPlausible(tokenizer, s.calls[id]))
  }

  lemma MovePlausible(c: Settings, tokenizer: Tokenizer, s: State, id: nat, now: int, env: Env)
    requires 0 < c.capacity && Enabled(tokenizer, s, Advance(id, now, env)) && AllPlausible(tokenizer, s)
    ensures AllPlausible(tokenizer, Move(c, s, id, now, env))
  {
    var s' := Move(c, s, id, now, env);
    assert CallPlausible(tokenizer, s.calls[id]);
    assert CallPlausible(tokenizer, s'.calls[id]);
    assert forall other :: other in s'.calls && other != id ==> s'.calls[other] == s.calls[other];
  }

  lemma {:induction false} ReachedPlausible(c: Settings, tokenizer: Tokenizer, trace: seq<Action>, s: State)
    requires 0 < c.capacity && Reached(c, tokenizer, trace, s)
    ensures AllPlausible(tokenizer, s)
  {
    if trace != [] {
      var last := trace[|trace| - 1];
      var before :| Reached(c, tokenizer, trace[..|trace| - 1], before) && Enabled(tokenizer, before, last)
                    && s == Next(c, tokenizer, before, last);
      ReachedPlausible(c, tokenizer, trace[..|trace| - 1], before);
      if last.Advance? { MovePlausible(c, tokenizer, before, last.id, last.now, last.env); }
    }
  }

  /** Agreement with the uncached computation: whatever the interleaving, every answer is either
      a count the tokenizer gives for that model and text or the length estimate for that text. */
  lemma {:induction false} AnswersAgreeWithUncached(c: Settings, tokenizer: Tokenizer, trace: seq<Action>,
      s: State, id: nat)
    requires 0 < c.capacity && 0 <= c.l1Ttl && 0 <= c.l2Ttl && Reached(c, tokenizer, trace, s)
    requires Unambiguous(c, s) && id in s.calls && s.calls[id].pc.Done?
    ensures Plausible(tokenizer, s.calls[id].request, s.calls[id].pc.answer.count)
  {
    ReachedPlausible(c, tokenizer, trace, s);
    if s.calls[id].pc.answer.cached {
      CachedAnswerProvenance(c, tokenizer, trace, s, id);
    }
  }

  // ---------- counters ----------

  /** Calls that have not yet counted a hit or a miss. */
  predicate Undecided(pc: Pc) {
    pc.ReadingL1? || pc.CountingLocalHit? || pc.ReadingL2? || pc.Backfilling? || pc.CountingRedisHit?
    || pc.CountingHit? || pc.CountingMiss?
  }

  /** Calls that counted the level of their hit but not yet the hit. */
  predicate HalfHit(pc: Pc) { pc.CountingHit? }

  /** Calls that counted a miss but not yet how they got their count. */
  predicate HalfMiss(pc: Pc) { pc.Tokenizing? || pc.CountingCall? }

  predicate InFlight(pc: Pc) { !pc.Done? }

  function Which(calls: map<nat, Call>, p: Pc -> bool): set<nat> {
    set id | id in calls && p(calls[id].pc)
  }

  lemma WhichUpdate(calls: map<nat, Call>, id: nat, call: Call, p: Pc -> bool)
    ensures |Which(calls[id := call], p)| ==
            |Which(calls, p)| - (if id in calls && p(calls[id].pc) then 1 else 0) + (if p(call.pc) then 1 else 0)
  {
    var a, b := Which(calls, p), Which(calls[id := call], p);
    forall other | other != id ensures other in a <==> other in b {}
    SizeChange(a, b, id);
  }

  lemma SizeChange(a: set<nat>, b: set<nat>, id: nat)
    requires forall other :: other != id ==> (other in a <==> other in b)
    ensures |b| == |a| - (if id in a then 1 else 0) + (if id in b then 1 else 0)
  {
    assert a - {id} == b - {id};
    SizeWithout(a, id);
    SizeWithout(b, id);
  }

  lemma SizeWithout(a: set<nat>, id: nat)
    ensures |a| == |a - {id}| + if id in a then 1 else 0
  {
    if id in a { assert a == (a - {id}) + {id}; } else { assert a == a - {id}; }
  }

  function Bit(b: bool): nat { if b then 1 else 0 }

  ghost predicate Balanced(s: State) {
    var n := s.store.stats;
    && n.hits + n.misses + |Which(s.calls, Undecided)| == |s.calls|
    && n.localHits + n.redisHits == n.hits + |Which(s.calls, HalfHit)|
    && n.misses == n.pythonCalls + n.fallbackCalls + |Which(s.calls, HalfMiss)|
  }

  lemma MoveDecides(c: Settings, s: State, id: nat, now: int, env: Env)
    requires 0 < c.capacity && c.connected && id in s.calls
    ensures var s' := Move(c, s, id, now, env);
            var n, n', pc, pc' := s.store.stats, s'.store.stats, s.calls[id].pc, s'.calls[id].pc;
            n'.hits + n'.misses + Bit(Undecided(pc')) == n.hits + n.misses + Bit(Undecided(pc))
  {
  }

  lemma MoveCountsHits(c: Settings, s: State, id: nat, now: int, env: Env)
    requires 0 < c.capacity && c.connected && id in s.calls
    ensures var s' := Move(c, s, id, now, env);
            var n, n', pc, pc' := s.store.stats, s'.store.stats, s.calls[id].pc, s'.calls[id].pc;
            n'.localHits + n'.redisHits - n'.hits - Bit(HalfHit(pc')) ==
              n.localHits + n.redisHits - n.hits - Bit(HalfHit(pc))
  {
  }

  lemma MoveCountsMisses(c: Settings, s: State, id: nat, now: int, env: Env)
    requires 0 < c.capacity && c.connected && id in s.calls
    ensures var s' := Move(c, s, id, now, env);
            var n, n', pc, pc' := s.store.stats, s'.store.stats, s.calls[id].pc, s'.calls[id].pc;
            n'.misses - n'.pythonCalls - n'.fallbackCalls - Bit(HalfMiss(pc')) ==
            n.misses - n.pythonCalls - n.fallbackCalls - Bit(HalfMiss(pc))
  {
  }

  /** Each step of a call moves the counters as it moves the call. */
  lemma MoveCounts(c: Settings, s: State, id: nat, now: int, env: Env)
    requires 0 < c.capacity && c.connected && id in s.calls
    ensures var s' := Move(c, s, id, now, env);
            var n, n', pc, pc' := s.store.stats, s'.store.stats, s.calls[id].pc, s'.calls[id].pc;
            && s'.calls == s.calls[id := s'.calls[id]]
            && n'.hits + n'.misses + Bit(Undecided(pc')) == n.hits + n.misses + Bit(Undecided(pc))
            && n'.localHits + n'.redisHits - n'.hits - Bit(HalfHit(pc')) ==
                 n.localHits + n.redisHits - n.hits - Bit(HalfHit(pc))
            && n'.misses - n'.pythonCalls - n'.fallbackCalls - Bit(HalfMiss(pc')) ==
               n.misses - n.pythonCalls - n.fallbackCalls - Bit(HalfMiss(pc))
  {
    MoveDecides(c, s, id, now, env);
    MoveCountsHits(c, s, id, now, env);
    MoveCountsMisses(c, s, id, now, env);
  }

  lemma StepBalanced(c: Settings, tokenizer: Tokenizer, s: State, a: Action)
    requires 0 < c.capacity && c.connected && Enabled(tokenizer, s, a) && Balanced(s)
    ensures Balanced(Next(c, tokenizer, s, a))
  {
    if !a.Forget? {
      if a.Advance? { MoveCounts(c, s, a.id, a.now, a.env); }
      var call := if a.Begin? then Call(a.request, ReadingL1) else Move(c, s, a.id, a.now, a.env).calls[a.id];
      WhichUpdate(s.calls, a.id, call, Undecided);
      WhichUpdate(s.calls, a.id, call, HalfHit);
      WhichUpdate(s.calls, a.id, call, HalfMiss);
    }
  }

  lemma {:induction false} ReachedBalanced(c: Settings, tokenizer: Tokenizer, trace: seq<Action>, s: State)
    requires 0 < c.capacity && c.connected && Reached(c, tokenizer, trace, s)
    ensures Balanced(s)
  {
    if trace == [] {
      assert Which(s.calls, Undecided) == Which(s.calls, HalfHit) == Which(s.calls, HalfMiss) == {};
    } else {
      var last := trace[|trace| - 1];
      var before :| Reached(c, tokenizer, trace[..|trace| - 1], before) && Enabled(tokenizer, before, last)
                    && s == Next(c, tokenizer, before, last);
      ReachedBalanced(c, tokenizer, trace[..|trace| - 1], before);
      StepBalanced(c, tokenizer, before, last);
    }
  }

  lemma WhichSubset(calls: map<nat, Call>, p: Pc -> bool, q: Pc -> bool)
    requires forall pc :: p(pc) ==> q(pc)
    ensures |Which(calls, p)| <= |Which(calls, q)|
  {
    var a, b := Which(calls, p), Which(calls, q);
    assert a <= b && b == a + (b - a);
  }

  /** Calls and their outcomes, hits and their two kinds, misses and their two kinds: the second
      never runs ahead of the first in the counting, and lags by at most `open`. */
  ghost predicate GapsWithin(s: State, open: nat) {
    var n := s.store.stats;
    && 0 <= |s.calls| - (n.hits + n.misses) <= open
    && 0 <= n.localHits + n.redisHits - n.hits <= open
    && 0 <= n.misses - (n.pythonCalls + n.fallbackCalls) <= open
  }

  lemma BalancedGaps(s: State)
    requires Balanced(s)
    ensures GapsWithin(s, |Which(s.calls, InFlight)|)
  {
    WhichSubset(s.calls, Undecided, InFlight);
    WhichSubset(s.calls, HalfHit, InFlight);
    WhichSubset(s.calls, HalfMiss, InFlight);
  }

  /** Counter conservation over concurrent runs: at any moment each gap between counters that
      belong together is at most the number of calls in flight, and when none is in flight they
      agree exactly and account for every call made. */
  lemma {:induction false} CountersConserved(c: Settings, tokenizer: Tokenizer, trace: seq<Action>, s: State)
    requires 0 < c.capacity && c.connected && Reached(c, tokenizer, trace, s)
    ensures GapsWithin(s, |Which(s.calls, InFlight)|)
    ensures (forall id :: id in s.calls ==> s.calls[id].pc.Done?) ==> GapsWithin(s, 0)
  {
    ReachedBalanced(c, tokenizer, trace, s);
    BalancedGaps(s);
    if forall id :: id in s.calls ==> s.calls[id].pc.Done? {
      assert Which(s.calls, InFlight) == {};
    }
  }

  // ---------- calls that run alone ----------

  /** A step of call `id` that reads the clock at `now`. */
  function Tick(c: Settings, s: State, id: nat, now: int, env: Env): (r: State)
    requires 0 < c.capacity && id in s.calls
    ensures id in r.calls
  {
    Move(c, s, id, now, env).(clock := now)
  }

  /** State `k` is followed by the next step of call `id`, which reads `clock(k)`. */
  ghost predicate StepAt(c: Settings, ss: seq<State>, id: nat, clock: nat -> int, env: Env, k: nat)
    requires 0 < c.capacity
  {
    k + 1 < |ss| && id in ss[k].calls && ss[k + 1] == Tick(c, ss[k], id, clock(k), env)
  }

  /** The states of call `id` while nothing else happens. */
  ghost predicate Undisturbed(c: Settings, ss: seq<State>, id: nat, clock: nat -> int, env: Env)
    requires 0 < c.capacity
  {
    && 0 < |ss| && (forall k :: 0 <= k < |ss| ==> id in ss[k].calls)
    && forall k: nat :: k + 1 < |ss| ==> StepAt(c, ss, id, clock, env, k)
  }

  ghost predicate SameButClock(s: State, r: State) {
    r.store == s.store && r.calls == s.calls && r.events == s.events && r.lag == s.lag
  }

  lemma TickStays(c: Settings, s: State, id: nat, now: int, env: Env)
    requires 0 < c.capacity && id in s.calls && s.calls[id].pc.Done?
    ensures SameButClock(s, Tick(c, s, id, now, env))
  {
    var e := EffectOf(c, s.store, s.calls[id], now, env);
    assert e == Plain(s.store, s.calls[id].pc);
    assert s.calls[id := s.calls[id].(pc := e.pc)] == s.calls;
  }

  /** A call that is done stays as it is. */
  lemma {:induction false} DoneStays(c: Settings, ss: seq<State>, id: nat, clock: nat -> int, env: Env, m: nat, n: nat)
    requires 0 < c.capacity && Undisturbed(c, ss, id, clock, env) && m <= n < |ss| && ss[m].calls[id].pc.Done?
    ensures SameButClock(ss[m], ss[n])
    decreases n
  {
    if m < n {
      DoneStays(c, ss, id, clock, env, m, n - 1);
      assert StepAt(c, ss, id, clock, env, n - 1);
      TickStays(c, ss[n - 1], id, clock(n - 1), env);
    }
  }

  /** Call `id` is done with answer `a`, found at `at`, and the store is `store`. */
  ghost predicate Finished(s: State, id: nat, store: Store, a: Answer, at: int) {
    id in s.calls && s.calls[id].pc == Done(a, at) && s.store == store
  }

  /** The last two steps of a level-1 hit. */
  lemma LocalHitSteps(c: Settings, s: State, id: nat, t1: int, t2: int, env: Env)
    requires 0 < c.capacity && id in s.calls && s.calls[id].pc.CountingLocalHit?
    ensures var r, found := Tick(c, Tick(c, s, id, t1, env), id, t2, env), s.calls[id].pc.found;
            && Finished(r, id, CountHit(c, CountLocalHit(c, s.store)), Answer(found.count, true, LocalLru), found.at)
            && r.lag == s.lag && r.events == s.events
  {
  }

  /** The last three steps of a level-2 hit. */
  lemma SharedHitSteps(c: Settings, s: State, id: nat, t2: int, t3: int, t4: int, env: Env)
    requires 0 < c.capacity && id in s.calls && s.calls[id].pc.Backfilling?
    ensures var r := Tick(c, Tick(c, Tick(c, s, id, t2, env), id, t3, env), id, t4, env);
            var key, found := KeyOf(c, s.calls[id].request), s.calls[id].pc.found;
            && Finished(r, id, CountHit(c, CountRedisHit(c, WriteL1(c, s.store, key, found.count, t2))),
                        Answer(found.count, true, Redis), found.at)
            && r.lag == Longer(s.lag, t2 - found.at) && r.events == s.events
  {
    var s1 := Tick(c, s, id, t2, env);
    assert s1.calls[id].pc == CountingRedisHit(s.calls[id].pc.found);
    var s2 := Tick(c, s1, id, t3, env);
    assert s2.calls[id].pc == CountingHit(Redis, s.calls[id].pc.found);
  }

  /** Getting a count. */
  lemma CountSteps(c: Settings, s: State, id: nat, t3: int, t4: int, env: Env)
    requires 0 < c.capacity && id in s.calls && s.calls[id].pc.Tokenizing?
    ensures var r, request := Tick(c, Tick(c, s, id, t3, env), id, t4, env), s.calls[id].request;
            var python := env.tokenized.Some?;
            && id in r.calls && r.lag == s.lag && r.store == CountCall(c, s.store, python)
            && r.calls[id] == Call(request, if python then WritingL1(env.tokenized.value, PythonService)
                                            else WritingL1(Fallback(request.text), FallbackEstimate))
  {
  }

  /** Storing it. */
  lemma WriteSteps(c: Settings, s: State, id: nat, t5: int, t6: int, env: Env)
    requires 0 < c.capacity && id in s.calls && s.calls[id].pc.WritingL1?
    ensures var r, key, pc := Tick(c, Tick(c, s, id, t5, env), id, t6, env), KeyOf(c, s.calls[id].request),
                        s.calls[id].pc;
            && Finished(r, id, Save(c, s.store, key, pc.count, WriteTimes(t5, t6), env.writeOk),
                        Answer(pc.count, false, pc.source), t6)
            && r.lag == s.lag
  {
  }

  /** Where the steps of a sequential call read the clock. */
  function ReadsOf(clock: nat -> int): ReadTimes {
    ReadTimes(clock(0), clock(1), clock(2))
  }

  function WritesOf(clock: nat -> int): WriteTimes {
    WriteTimes(clock(5), clock(6))
  }

  function FoundBy(source: Source, clock: nat -> int): int {
    match source
    case LocalLru => clock(0)
    case Redis => clock(1)
    case _ => clock(6)
  }

  /** A call with answer `a` that ran alone from `s` ends in `r`. */
  ghost predicate Ran(c: Settings, s: State, r: State, id: nat, request: Request, clock: nat -> int, env: Env)
    requires 0 < c.capacity
  {
    var e := Estimate(c, s.store, request, ReadsOf(clock), WritesOf(clock), env);
    && Finished(r, id, e.0, e.1, FoundBy(e.1.source, clock))
    && r.lag == (if e.1.source == Redis then Longer(s.lag, clock(2) - clock(1)) else s.lag)
    && (e.1.cached ==> r.events == s.events)
  }

  lemma LocalHitAlone(c: Settings, s: State, id: nat, clock: nat -> int, env: Env, s1: State)
    requires 0 < c.capacity && id in s.calls && s.calls[id].pc == ReadingL1
    requires s1 == Tick(c, s, id, clock(0), env) && s1.calls[id].pc.CountingLocalHit?
    ensures Ran(c, s, Tick(c, Tick(c, s1, id, clock(1), env), id, clock(2), env), id, s.calls[id].request, clock, env)
  {
    LocalHitSteps(c, s1, id, clock(1), clock(2), env);
  }

  /** What a level-1 miss and the level-2 read behind it leave. */
  lemma ReadSteps(c: Settings, s: State, id: nat, clock: nat -> int, env: Env, s1: State, s2: State)
    requires 0 < c.capacity && id in s.calls && s.calls[id].pc == ReadingL1
    requires s1 == Tick(c, s, id, clock(0), env) && s1.calls[id].pc.ReadingL2? && s2 == Tick(c, s1, id, clock(1), env)
    ensures var key := KeyOf(c, s.calls[id].request);
            var (store, local) := ReadL1(c, s.store, key, clock(0));
            var shared := ReadL2(c, store, key, clock(1), env.readOk);
            && local.None? && id in s2.calls && s2.calls[id].request == s.calls[id].request
            && s2.store == store && s2.lag == s.lag && s2.events == s.events
            && s2.calls[id].pc == if shared.Some? then Backfilling(Found(shared.value, clock(1))) else CountingMiss
  {
  }

  lemma SharedHitAlone(c: Settings, s: State, id: nat, clock: nat -> int, env: Env, s1: State, s2: State, s5: State)
    requires 0 < c.capacity && id in s.calls && s.calls[id].pc == ReadingL1
    requires s1 == Tick(c, s, id, clock(0), env) && s1.calls[id].pc.ReadingL2? && s2 == Tick(c, s1, id, clock(1), env)
    requires s2.calls[id].pc.Backfilling?
    requires s5 == Tick(c, Tick(c, Tick(c, s2, id, clock(2), env), id, clock(3), env), id, clock(4), env)
    ensures Ran(c, s, s5, id, s.calls[id].request, clock, env)
  {
    ReadSteps(c, s, id, clock, env, s1, s2);
    SharedHitSteps(c, s2, id, clock(2), clock(3), clock(4), env);
  }

  lemma MissAlone(c: Settings, s: State, id: nat, clock: nat -> int, env: Env, s1: State, s2: State, s3: State,
                  s5: State, s7: State)
    requires 0 < c.capacity && id in s.calls && s.calls[id].pc == ReadingL1
    requires s1 == Tick(c, s, id, clock(0), env) && s1.calls[id].pc.ReadingL2? && s2 == Tick(c, s1, id, clock(1), env)
    requires s2.calls[id].pc.CountingMiss? && s3 == Tick(c, s2, id, clock(2), env)
    requires s5 == Tick(c, Tick(c, s3, id, clock(3), env), id, clock(4), env)
    requires s7 == Tick(c, Tick(c, s5, id, clock(5), env), id, clock(6), env)
    ensures Ran(c, s, s7, id, s.calls[id].request, clock, env)
  {
    ReadSteps(c, s, id, clock, env, s1, s2);
    assert s3.calls[id] == Call(s.calls[id].request, Tokenizing) && s3.store == CountMiss(c, s2.store);
    CountSteps(c, s3, id, clock(3), clock(4), env);
    WriteSteps(c, s5, id, clock(5), clock(6), env);
  }

  /** The sequential estimate is one of the runs of this machine: a call that is not interrupted
      finishes within seven steps, each with its own reading of the clock, with exactly the answer
      and the store of the sequential code. It adds to the lag only what its own refill was delayed. */
  lemma UninterruptedCallIsSequential(c: Settings, ss: seq<State>, id: nat, clock: nat -> int, env: Env)
    requires 0 < c.capacity && Undisturbed(c, ss, id, clock, env) && 7 < |ss| && ss[0].calls[id].pc == ReadingL1
    ensures Ran(c, ss[0], ss[|ss| - 1], id, ss[0].calls[id].request, clock, env)
  {
    var n: nat := |ss| - 1;
    assert StepAt(c, ss, id, clock, env, 0) && StepAt(c, ss, id, clock, env, 1) && StepAt(c, ss, id, clock, env, 2);
    assert StepAt(c, ss, id, clock, env, 3) && StepAt(c, ss, id, clock, env, 4);
    assert StepAt(c, ss, id, clock, env, 5) && StepAt(c, ss, id, clock, env, 6);
    if ss[1].calls[id].pc.CountingLocalHit? {
      LocalHitAlone(c, ss[0], id, clock, env, ss[1]);
      DoneStays(c, ss, id, clock, env, 3, n);
    } else {
      ReadSteps(c, ss[0], id, clock, env, ss[1], ss[2]);
      if ss[2].calls[id].pc.Backfilling? {
        SharedHitAlone(c, ss[0], id, clock, env, ss[1], ss[2], ss[5]);
        DoneStays(c, ss, id, clock, env, 5, n);
      } else {
        MissAlone(c, ss[0], id, clock, env, ss[1], ss[2], ss[3], ss[5], ss[7]);
        DoneStays(c, ss, id, clock, env, 7, n);
      }
    }
  }

  // ---------- the bound is tight ----------

  lemma {:induction false} ReachedMore(c: Settings, tokenizer: Tokenizer, trace: seq<Action>, s: State, a: Action)
    requires 0 < c.capacity && Reached(c, tokenizer, trace, s) && Enabled(tokenizer, s, a)
    ensures Reached(c, tokenizer, trace + [a], Next(c, tokenizer, s, a))
  {
    var more := trace + [a];
    assert more[..|more| - 1] == trace && more[|more| - 1] == a;
    assert Reached(c, tokenizer, more[..|more| - 1], s) && Enabled(tokenizer, s, more[|more| - 1]);
  }

  ghost predicate NeverBack(clock: nat -> int) {
    forall j: nat, k: nat :: j <= k ==> clock(j) <= clock(k)
  }

  /** A step of call `id` at time `now` may only have moved that call and written at that time. */
  lemma TickWrites(c: Settings, s: State, id: nat, now: int, env: Env)
    requires 0 < c.capacity && id in s.calls
    ensures var r := Tick(c, s, id, now, env);
            && r.clock == now && r.calls.Keys == s.calls.Keys && r.calls[id].request == s.calls[id].request
            && (forall other :: other in s.calls && other != id ==> r.calls[other] == s.calls[other])
            && (forall e :: e in r.events && e !in s.events ==> e.at == now)
  {
  }

  /** What the first `n` steps of call `id` may have changed. */
  ghost predicate OnlyMoved(s: State, r: State, id: nat, clock: nat -> int, n: nat) {
    && id in s.calls && r.calls.Keys == s.calls.Keys && r.calls[id].request == s.calls[id].request
    && (forall other :: other in s.calls && other != id ==> r.calls[other] == s.calls[other])
    && r.clock == (if n == 0 then s.clock else clock(n - 1))
    && forall e :: e in r.events && e !in s.events ==> clock(0) <= e.at <= clock(n)
  }

  lemma {:induction false} UndisturbedWrites(c: Settings, ss: seq<State>, id: nat, clock: nat -> int, env: Env, n: nat)
    requires 0 < c.capacity && Undisturbed(c, ss, id, clock, env) && NeverBack(clock) && n < |ss|
    ensures OnlyMoved(ss[0], ss[n], id, clock, n)
  {
    if n > 0 {
      UndisturbedWrites(c, ss, id, clock, env, n - 1);
      assert StepAt(c, ss, id, clock, env, n - 1);
      TickWrites(c, ss[n - 1], id, clock(n - 1), env);
      assert clock(0) <= clock(n - 1) <= clock(n);
    }
  }

  lemma UndisturbedSnoc(c: Settings, ss: seq<State>, id: nat, clock: nat -> int, env: Env, s': State)
    requires 0 < c.capacity && Undisturbed(c, ss, id, clock, env)
    requires s' == Tick(c, ss[|ss| - 1], id, clock(|ss| - 1), env)
    ensures Undisturbed(c, ss + [s'], id, clock, env)
  {
    var longer := ss + [s'];
    forall k: nat | k + 1 < |longer| ensures StepAt(c, longer, id, clock, env, k) {
      if k + 1 < |ss| { assert StepAt(c, ss, id, clock, env, k); }
    }
  }

  lemma ReachedTick(c: Settings, tokenizer: Tokenizer, trace: seq<Action>, s: State, id: nat, now: int, env: Env)
    returns (s': State)
    requires 0 < c.capacity && id in s.calls && Reached(c, tokenizer, trace, s) && s.clock <= now
    requires env.tokenized.Some? ==> tokenizer(s.calls[id].request, env.tokenized.value)
    ensures s' == Tick(c, s, id, now, env) && Reached(c, tokenizer, trace + [Advance(id, now, env)], s')
  {
    s' := Tick(c, s, id, now, env);
    ReachedMore(c, tokenizer, trace, s, Advance(id, now, env));
  }

  /** One more undisturbed step of a trace. */
  lemma OneMoreStep(c: Settings, tokenizer: Tokenizer, trace: seq<Action>, ss: seq<State>, id: nat,
                    clock: nat -> int, env: Env)
    returns (more: seq<Action>, longer: seq<State>)
    requires 0 < c.capacity && Undisturbed(c, ss, id, clock, env) && Reached(c, tokenizer, trace, ss[|ss| - 1])
    requires env.tokenized.Some? ==> tokenizer(ss[0].calls[id].request, env.tokenized.value)
    requires NeverBack(clock) && ss[0].clock <= clock(0)
    ensures trace <= more && |longer| == |ss| + 1 && longer[..|ss|] == ss
    ensures Undisturbed(c, longer, id, clock, env) && Reached(c, tokenizer, more, longer[|ss|])
  {
    var last, now := ss[|ss| - 1], clock(|ss| - 1);
    UndisturbedWrites(c, ss, id, clock, env, |ss| - 1);
    var s' := ReachedTick(c, tokenizer, trace, last, id, now, env);
    UndisturbedSnoc(c, ss, id, clock, env, s');
    more, longer := trace + [Advance(id, now, env)], ss + [s'];
  }

  lemma {:induction false} UndisturbedReached(c: Settings, tokenizer: Tokenizer, trace: seq<Action>, s: State, id: nat,
                                              clock: nat -> int, env: Env, n: nat)
    returns (more: seq<Action>, ss: seq<State>)
    requires 0 < c.capacity && id in s.calls && Reached(c, tokenizer, trace, s)
    requires env.tokenized.Some? ==> tokenizer(s.calls[id].request, env.tokenized.value)
    requires NeverBack(clock) && s.clock <= clock(0)
    ensures trace <= more && |ss| == n + 1 && ss[0] == s
    ensures Undisturbed(c, ss, id, clock, env) && Reached(c, tokenizer, more, ss[n])
  {
    if n == 0 {
      more, ss := trace, [s];
    } else {
      more, ss := UndisturbedReached(c, tokenizer, trace, s, id, clock, env, n - 1);
      more, ss := OneMoreStep(c, tokenizer, more, ss, id, clock, env);
    }
  }

  /** A call that begins at `clock(0)` and runs to its end undisturbed. */
  lemma WholeCall(c: Settings, tokenizer: Tokenizer, trace: seq<Action>, s: State, id: nat, r: Request,
                  clock: nat -> int, env: Env)
    returns (more: seq<Action>, s': State)
    requires 0 < c.capacity && Reached(c, tokenizer, trace, s) && id !in s.calls
    requires NeverBack(clock) && s.clock <= clock(0)
    requires env.tokenized.Some? ==> tokenizer(r, env.tokenized.value)
    ensures trace <= more && Reached(c, tokenizer, more, s') && Ran(c, s, s', id, r, clock, env)
    ensures OnlyMoved(s.(calls := s.calls[id := Call(r, ReadingL1)], clock := clock(0)), s', id, clock, 7)
  {
    var begin := Begin(id, r, clock(0));
    ReachedMore(c, tokenizer, trace, s, begin);
    var s1 := Next(c, tokenizer, s, begin);
    var ss;
    more, ss := UndisturbedReached(c, tokenizer, trace + [begin], s1, id, clock, env, 7);
    s' := ss[7];
    UninterruptedCallIsSequential(c, ss, id, clock, env);
    UndisturbedWrites(c, ss, id, clock, env, 7);
  }

  /** All calls made so far are done. */
  ghost predicate AtRest(s: State) {
    forall id :: id in s.calls ==> s.calls[id].pc.Done?
  }

  /** Call 0 stored `count` at time 0, and nothing else has happened. */
  ghost predicate StoredOnce(c: Settings, s: State, r: Request, count: int) {
    && s.store.l1 == [Entry(KeyOf(c, r), Timed(count, c.l1Ttl))]
    && s.store.l2 == map[KeyOf(c, r) := Timed(count, c.l2Ttl)]
    && s.clock == 0 && s.lag == 0 && s.calls.Keys == {0} && AtRest(s) && forall e :: e in s.events ==> e.at == 0
  }

  lemma StoreOnce(c: Settings, tokenizer: Tokenizer, r: Request, count: int) returns (trace: seq<Action>, s: State)
    requires 0 < c.capacity && c.connected && tokenizer(r, count)
    ensures Reached(c, tokenizer, trace, s) && StoredOnce(c, s, r, count)
  {
    assert Reached(c, tokenizer, [], INITIAL) && Find(INITIAL.store.l1, KeyOf(c, r)) == None;
    trace, s := WholeCall(c, tokenizer, [], INITIAL, 0, r, k => 0, Env(true, true, Some(count)));
  }

  /** Reads both levels at `at` and refills `delay` later. */
  function Delayed(at: int, delay: nat): nat -> int {
    k => if k < 2 then at else at + delay
  }

  /** Call 1 finds the count gone from level 1 and at the end of its life in level 2, and refills
      level 1 with it `delay` later. */
  ghost predicate RefilledLate(c: Settings, s: State, r: Request, count: int, delay: nat) {
    && s.store.l1 == [Entry(KeyOf(c, r), Timed(count, c.l1Ttl + c.l2Ttl + delay))]
    && s.clock == c.l2Ttl + delay && s.lag == delay && s.calls.Keys == {0, 1} && AtRest(s)
    && forall e :: e in s.events ==> e.at == 0
  }

  lemma LateEstimate(c: Settings, s: Store, r: Request, count: int, delay: nat)
    requires 0 < c.capacity && c.connected && 0 <= c.l1Ttl < c.l2Ttl
    requires s.l1 == [Entry(KeyOf(c, r), Timed(count, c.l1Ttl))] && s.l2 == map[KeyOf(c, r) := Timed(count, c.l2Ttl)]
    ensures var clock := Delayed(c.l2Ttl, delay);
            var e := Estimate(c, s, r, ReadsOf(clock), WritesOf(clock), Env(true, true, None));
            e.1 == Answer(count, true, Redis) && e.0.l1 == [Entry(KeyOf(c, r), Timed(count, c.l1Ttl + c.l2Ttl + delay))]
  {
    var key := KeyOf(c, r);
    assert Find(s.l1, key) == Some(Timed(count, c.l1Ttl)) && Without(s.l1, key) == [];
    var s1 := ReadL1(c, s, key, c.l2Ttl).0;
    assert s1.l1 == [] && Find(s1.l1, key) == None;
  }

  lemma RefillLate(c: Settings, tokenizer: Tokenizer, trace: seq<Action>, s: State, r: Request, count: int, delay: nat)
    returns (more: seq<Action>, s': State)
    requires 0 < c.capacity && c.connected && 0 <= c.l1Ttl < c.l2Ttl
    requires Reached(c, tokenizer, trace, s) && StoredOnce(c, s, r, count)
    ensures Reached(c, tokenizer, more, s') && RefilledLate(c, s', r, count, delay)
  {
    more, s' := WholeCall(c, tokenizer, trace, s, 1, r, Delayed(c.l2Ttl, delay), Env(true, true, None));
    LateEstimate(c, s.store, r, count, delay);
  }

  /** The bound cannot be improved, not even for calls made one after the other: for every delay
      there is a run in which a call begins when all earlier ones are done and is answered with a
      count that was last written l1Ttl + l2Ttl and that delay before. */
  lemma StalenessBoundIsTight(c: Settings, tokenizer: Tokenizer, r: Request, count: int, delay: nat)
    returns (before: seq<Action>, rest: State, trace: seq<Action>, s: State)
    requires 0 < c.capacity && c.connected && 0 <= c.l1Ttl < c.l2Ttl && tokenizer(r, count)
    ensures Reached(c, tokenizer, before, rest) && AtRest(rest) && 2 !in rest.calls
    ensures before <= trace && Reached(c, tokenizer, trace, s) && s.lag == delay
    ensures 2 in s.calls && s.calls[2].request == r && s.calls[2].pc.Done?
    ensures s.calls[2].pc.answer == Answer(count, true, LocalLru)
    ensures forall e :: e in s.events ==> s.calls[2].pc.readAt - e.at == c.l1Ttl + c.l2Ttl + delay
  {
    var first, stored := StoreOnce(c, tokenizer, r, count);
    before, rest := RefillLate(c, tokenizer, first, stored, r, count, delay);
    var now := c.l1Ttl + c.l2Ttl + delay;
    assert Find(rest.store.l1, KeyOf(c, r)) == Some(Timed(count, now));
    trace, s := WholeCall(c, tokenizer, before, rest, 2, r, k => now, Env(true, true, None));
  }
}
