/** Every answer of the two-level token cache, used by one call after the other, from what was asked and
    told before; the counters; and one estimate as a whole.
 */
module TokenLaw {
  import opened RecencyLaw
  import opened RecencyList
  import opened TokenCache
  import opened TokenTraces
  import opened Wrappers

  // ---------- level 1 as calls on a recency list ----------

  /** The answer an operation gets after those before it. */
  function AnswerTo(c: Settings, ops: seq<CacheOp>, op: CacheOp): Lookup
    requires 0 < c.capacity
  {
    Perform(c, PerformAll(c, ops), op).1
  }

  /** What one operation does on level 1, given its answer: a count told is set, one asked for is got and,
      if it came from level 2, set. */
  function CallsOn(c: Settings, op: CacheOp, answer: Lookup): seq<Op<Timed>> {
    match op
    case Tell(r, count, write, _) => [Op.Set(KeyOf(c, r), Timed(count, write.l1 + c.l1Ttl))]
    case Ask(r, read, _) =>
      [Op.Get(KeyOf(c, r), read.l1)] +
      if answer.Hit? && answer.source == Redis
      then [Op.Set(KeyOf(c, r), Timed(answer.count, read.refill + c.l1Ttl))] else []
    case Drop(_, _) => []
  }

  function LevelOne(c: Settings, ops: seq<CacheOp>): seq<Op<Timed>>
    requires 0 < c.capacity
  {
    if ops == [] then []
    else
      var init, last := ops[..|ops| - 1], ops[|ops| - 1];
      LevelOne(c, init) + CallsOn(c, last, AnswerTo(c, init, last))
  }

  lemma {:induction false} RunOneMore(capacity: nat, ops: seq<Op<Timed>>, op: Op<Timed>)
    requires 0 < capacity
    ensures Run(capacity, ops + [op], Expired).0 == Step(Run(capacity, ops, Expired).0, capacity, op, Expired).0
  {
    assert (ops + [op])[..|ops|] == ops;
  }

  /** What a look-up does on level 1. */
  lemma AskOnLevelOne(c: Settings, s: Store, key: string, read: ReadTimes, ok: bool)
    requires 0 < c.capacity
    ensures var (s', answer) := LookUp(c, s, key, read, ok);
            var got := Step(s.l1, c.capacity, Op.Get(key, read.l1), Expired).0;
            s'.l1 == if answer.Hit? && answer.source == Redis
                     then Step(got, c.capacity, Op.Set(key, Timed(answer.count, read.refill + c.l1Ttl)), Expired).0
                     else got
  {
  }

  lemma {:induction false} RunTwoMore(capacity: nat, ops: seq<Op<Timed>>, a: Op<Timed>, b: Op<Timed>)
    requires 0 < capacity
    ensures Run(capacity, ops + [a, b], Expired).0 ==
            Step(Step(Run(capacity, ops, Expired).0, capacity, a, Expired).0, capacity, b, Expired).0
  {
    RunOneMore(capacity, ops, a);
    RunOneMore(capacity, ops + [a], b);
    assert ops + [a, b] == (ops + [a]) + [b];
  }

  lemma {:induction false} AskRuns(c: Settings, s: Store, r: Request, read: ReadTimes, ok: bool, l1: seq<Op<Timed>>)
    requires 0 < c.capacity && s.l1 == Run(c.capacity, l1, Expired).0
    ensures var (s', answer) := LookUp(c, s, KeyOf(c, r), read, ok);
            s'.l1 == Run(c.capacity, l1 + CallsOn(c, Ask(r, read, ok), answer), Expired).0
  {
    var answer := LookUp(c, s, KeyOf(c, r), read, ok).1;
    var get := Op.Get(KeyOf(c, r), read.l1);
    AskOnLevelOne(c, s, KeyOf(c, r), read, ok);
    if answer.Hit? && answer.source == Redis {
      var put := Op.Set(KeyOf(c, r), Timed(answer.count, read.refill + c.l1Ttl));
      RunTwoMore(c.capacity, l1, get, put);
      assert CallsOn(c, Ask(r, read, ok), answer) == [get, put];
    } else {
      RunOneMore(c.capacity, l1, get);
      assert CallsOn(c, Ask(r, read, ok), answer) == [get];
    }
  }

  lemma {:induction false} TellRuns(c: Settings, s: Store, r: Request, count: int, write: WriteTimes, ok: bool,
      l1: seq<Op<Timed>>)
    requires 0 < c.capacity && s.l1 == Run(c.capacity, l1, Expired).0
    ensures var op := Tell(r, count, write, ok);
            var (s', answer) := Perform(c, s, op); s'.l1 == Run(c.capacity, l1 + CallsOn(c, op, answer), Expired).0
  {
    RunOneMore(c.capacity, l1, Op.Set(KeyOf(c, r), Timed(count, write.l1 + c.l1Ttl)));
  }

  lemma {:induction false} PerformOnLevelOne(c: Settings, s: Store, op: CacheOp, l1: seq<Op<Timed>>)
    requires 0 < c.capacity && s.l1 == Run(c.capacity, l1, Expired).0
    ensures var (s', answer) := Perform(c, s, op); s'.l1 == Run(c.capacity, l1 + CallsOn(c, op, answer), Expired).0
  {
    match op
    case Tell(r, count, write, ok) => TellRuns(c, s, r, count, write, ok, l1);
    case Ask(r, read, ok) => AskRuns(c, s, r, read, ok, l1);
    case Drop(_, _) => assert l1 + [] == l1;
  }

  lemma {:induction false} LevelOneIsRun(c: Settings, ops: seq<CacheOp>)
    requires 0 < c.capacity
    ensures PerformAll(c, ops).l1 == Run(c.capacity, LevelOne(c, ops), Expired).0
  {
    if ops != [] {
      var init := ops[..|ops| - 1];
      LevelOneIsRun(c, init);
      PerformOnLevelOne(c, PerformAll(c, init), ops[|ops| - 1], LevelOne(c, init));
    }
  }

  // ---------- every answer ----------

  /** Level 1 has kept this count, by the law of least recent use over what was done on it, and it is
      still alive. */
  ghost predicate KeptLocally(c: Settings, ops: seq<CacheOp>, key: string, now: int, count: int)
    requires 0 < c.capacity
  {
    var l1 := LevelOne(c, ops);
    && (exists u: nat :: Retained(Calls(c.capacity, l1, Expired), u, key, c.capacity))
    && LastSet(l1, key).Some? && LastSet(l1, key).value.count == count && now <= LastSet(l1, key).value.expireAt
  }

  /** Level 2 can be read and has kept this count, still alive, as the last that got through. */
  ghost predicate KeptShared(c: Settings, ops: seq<CacheOp>, key: string, now: int, ok: bool, count: int) {
    var kept := LastKept(c, ops, key);
    c.connected && ok && kept.Some? && kept.value.count == count && now <= kept.value.expireAt
  }

  lemma {:induction false} LocalFound(c: Settings, ops: seq<CacheOp>, key: string)
    requires 0 < c.capacity
    ensures var l1 := LevelOne(c, ops);
            Find(PerformAll(c, ops).l1, key) ==
            if exists u: nat :: Retained(Calls(c.capacity, l1, Expired), u, key, c.capacity) then LastSet(l1, key)
            else None
  {
    var l1 := LevelOne(c, ops);
    LevelOneIsRun(c, ops);
    PresentIff(c.capacity, l1, Expired, key);
    HitReturnsLastSet(c.capacity, l1, Expired, key);
  }

  lemma {:induction false} KeptMeansFound(c: Settings, ops: seq<CacheOp>, key: string, now: int, count: int)
    requires 0 < c.capacity
    ensures var found := Find(PerformAll(c, ops).l1, key);
            KeptLocally(c, ops, key, now, count) <==>
            found.Some? && found.value.count == count && now <= found.value.expireAt
  {
    LocalFound(c, ops, key);
    HitReturnsLastSet(c.capacity, LevelOne(c, ops), Expired, key);
    LevelOneIsRun(c, ops);
  }

  /** Every answer of every run: from level 1 exactly if that has kept the key and the count is alive;
      else from level 2 exactly if that can be read and has kept it alive; else a miss. */
  lemma AskExact(c: Settings, ops: seq<CacheOp>, r: Request, at: ReadTimes, ok: bool)
    requires 0 < c.capacity
    ensures var answer, key := AnswerTo(c, ops, Ask(r, at, ok)), KeyOf(c, r);
            match answer
            case Hit(count, LocalLru) => KeptLocally(c, ops, key, at.l1, count)
            case Hit(count, Redis) =>
              KeptShared(c, ops, key, at.l2, ok, count) && forall n :: !KeptLocally(c, ops, key, at.l1, n)
            case Hit(_, _) => false
            case Miss => forall n :: !KeptLocally(c, ops, key, at.l1, n) && !KeptShared(c, ops, key, at.l2, ok, n)
  {
    var key := KeyOf(c, r);
    forall n {
      KeptMeansFound(c, ops, key, at.l1, n);
    }
    SharedIsLastKept(c, ops, key);
  }

  // ---------- the counters ----------

  /** Where the answer to a look-up came from. */
  datatype Found = Locally | Shared | Nowhere

  function FoundBy(answer: Lookup): Found {
    match answer
    case Hit(_, LocalLru) => Locally
    case Hit(_, _) => Shared
    case Miss => Nowhere
  }

  /** Operation `i` is a look-up that found its count there. */
  predicate FindsAt(c: Settings, ops: seq<CacheOp>, i: nat, found: Found)
    requires 0 < c.capacity
  {
    i < |ops| && ops[i].Ask? && FoundBy(AnswerTo(c, ops[..i], ops[i])) == found
  }

  ghost function LookUps(c: Settings, ops: seq<CacheOp>, found: Found): set<nat>
    requires 0 < c.capacity
  {
    set i: nat | i < |ops| && FindsAt(c, ops, i, found)
  }

  lemma FindsAtInit(c: Settings, ops: seq<CacheOp>, i: nat, found: Found)
    requires 0 < c.capacity && i + 1 < |ops|
    ensures FindsAt(c, ops[..|ops| - 1], i, found) <==> FindsAt(c, ops, i, found)
  {
    assert ops[..|ops| - 1][..i] == ops[..i];
  }

  lemma LookUpsInit(c: Settings, ops: seq<CacheOp>, found: Found)
    requires 0 < c.capacity && ops != []
    ensures LookUps(c, ops[..|ops| - 1], found) == LookUps(c, ops, found) - {|ops| - 1}
  {
    var n := |ops| - 1;
    forall i: nat | i < n ensures i in LookUps(c, ops[..n], found) <==> i in LookUps(c, ops, found) {
      FindsAtInit(c, ops, i, found);
    }
  }

  lemma OneMoreLookUp(c: Settings, ops: seq<CacheOp>, found: Found)
    requires 0 < c.capacity && ops != []
    ensures |LookUps(c, ops, found)| ==
            |LookUps(c, ops[..|ops| - 1], found)| + if FindsAt(c, ops, |ops| - 1, found) then 1 else 0
  {
    LookUpsInit(c, ops, found);
  }

  /** What one operation adds to the counters. */
  lemma PerformCounts(c: Settings, s: Store, op: CacheOp)
    requires 0 < c.capacity
    ensures var (s', answer) := Perform(c, s, op);
            if op.Ask? && c.connected then
              s'.stats == match FoundBy(answer)
                          case Locally => s.stats.(localHits := s.stats.localHits + 1, hits := s.stats.hits + 1)
                          case Shared => s.stats.(redisHits := s.stats.redisHits + 1, hits := s.stats.hits + 1)
                          case Nowhere => s.stats.(misses := s.stats.misses + 1)
            else s'.stats == s.stats
  {
  }

  /** With a connection every look-up is counted once, as a hit of its level or as a miss; without one
      nothing is. */
  lemma {:induction false} CountersExact(c: Settings, ops: seq<CacheOp>)
    requires 0 < c.capacity
    ensures var n := PerformAll(c, ops).stats;
            if c.connected then
              && n.localHits == |LookUps(c, ops, Locally)| && n.redisHits == |LookUps(c, ops, Shared)|
              && n.misses == |LookUps(c, ops, Nowhere)| && n.hits == n.localHits + n.redisHits
              && n.pythonCalls == 0 && n.fallbackCalls == 0
            else n == Stats(0, 0, 0, 0, 0, 0)
  {
    if ops == [] {
      assert LookUps(c, ops, Locally) == LookUps(c, ops, Shared) == LookUps(c, ops, Nowhere) == {};
    } else {
      CountersExact(c, ops[..|ops| - 1]);
      PerformCounts(c, PerformAll(c, ops[..|ops| - 1]), ops[|ops| - 1]);
      OneMoreLookUp(c, ops, Locally);
      OneMoreLookUp(c, ops, Shared);
      OneMoreLookUp(c, ops, Nowhere);
    }
  }

  // ---------- one estimate ----------

  /** The count an estimate that finds nothing comes to: the tokenizer's, or else one token for every four
      bytes begun, and at least one. */
  ghost predicate CountsAnew(env: Env, text: string, count: int) {
    match env.tokenized
    case Some(n) => count == n
    case None => 4 * (count - 1) < |text| <= 4 * count || (text == "" && count == 1)
  }

  /** An estimate is answered with what the look-up finds, or else counted anew, stored at both levels for
      their lifetimes, at level 2 only if it can be written, and counted by its source. */
  lemma EstimateIs(c: Settings, s: Store, r: Request, read: ReadTimes, write: WriteTimes, env: Env)
    requires 0 < c.capacity
    ensures var (s1, found) := LookUp(c, s, KeyOf(c, r), read, env.readOk);
            var (s2, a) := Estimate(c, s, r, read, write, env);
            var local, shared := Timed(a.count, write.l1 + c.l1Ttl), Timed(a.count, write.l2 + c.l2Ttl);
            match found
            case Hit(count, source) => s2 == s1 && a == Answer(count, true, source)
            case Miss =>
              && !a.cached && a.source == (if env.tokenized.Some? then PythonService else FallbackEstimate)
              && CountsAnew(env, r.text, a.count)
              && s2.l1 != [] && s2.l1[0] == Entry(KeyOf(c, r), local)
              && s2.l2 == (if c.connected && env.writeOk then s1.l2[KeyOf(c, r) := shared] else s1.l2)
              && s2.stats == (if !c.connected then s1.stats
                              else if env.tokenized.Some?
                              then s1.stats.(pythonCalls := s1.stats.pythonCalls + 1)
                              else s1.stats.(fallbackCalls := s1.stats.fallbackCalls + 1))
  {
  }
}
