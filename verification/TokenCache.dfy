/** The two-level token-count cache: an in-process LRU with expiry in front of a shared store
    with expiry, and the prompt-size estimate that uses it. Every access reads the clock for
    itself, so a call takes as long as its readings say.
 */
module TokenCache {
  import opened Wrappers
  import opened RecencyList
  import opened CacheKeys
  import opened Sequences

  const DEFAULT_CAPACITY: nat := 10000

  /** A count and the last instant it may be served. */
  datatype Timed = Timed(count: int, expireAt: int)

  predicate Expired(v: Timed, now: int) {
    now > v.expireAt
  }

  // ---------- level 1 ----------

  function View(order: seq<string>, items: map<string, Timed>): Recency<Timed>
    requires forall k :: k in order ==> k in items
  {
    seq(|order|, i requires 0 <= i < |order| => Entry(order[i], items[order[i]]))
  }

  lemma ViewCons(k: string, rest: seq<string>, items: map<string, Timed>)
    requires k in items && forall x :: x in rest ==> x in items
    ensures forall x :: x in [k] + rest ==> x in items
    ensures View([k] + rest, items) == [Entry(k, items[k])] + View(rest, items)
  {
  }

  lemma {:induction false} ViewDropped(order: seq<string>, items: map<string, Timed>,
                                      items': map<string, Timed>, key: string)
    requires forall k :: k in order ==> k in items
    requires forall k :: k in order && k != key ==> k in items' && items'[k] == items[k]
    ensures forall k :: k in Dropped(order, key) ==> k in items'
    ensures View(Dropped(order, key), items') == Without(View(order, items), key)
  {
    DroppedMembers(order, key);
    if order != [] {
      var first, rest := order[0], order[1..];
      assert order == [first] + rest;
      ViewDropped(rest, items, items', key);
      ViewCons(first, rest, items);
      assert View(order, items)[0] == Entry(first, items[first]) && View(order, items)[1..] == View(rest, items);
      if first != key { ViewCons(first, Dropped(rest, key), items'); }
    }
  }

  lemma {:induction false} ViewFind(order: seq<string>, items: map<string, Timed>, key: string)
    requires forall k :: k in order ==> k in items
    ensures Find(View(order, items), key) == if key in order then Some(items[key]) else None
  {
    if order != [] {
      assert order == [order[0]] + order[1..];
      assert View(order, items)[1..] == View(order[1..], items);
      ViewFind(order[1..], items, key);
    }
  }

  class LocalLRU {
    const capacity: nat
    const ttl: nat
    var items: map<string, Timed>
    /** Keys, most recent first. */
    var order: seq<string>

    ghost predicate Valid()
      reads this
    {
      && 0 < capacity
      && (forall k :: k in order <==> k in items)
      && Distinct(Contents())
      && |order| <= capacity
    }

    ghost function Contents(): Recency<Timed>
      reads this
      requires forall k :: k in order ==> k in items
    {
      View(order, items)
    }

    constructor (capacity: int, ttl: int, defaultTtl: nat)
      ensures Valid() && Contents() == []
      ensures this.capacity == if capacity <= 0 then 10000 else capacity
      ensures this.ttl == if ttl <= 0 then defaultTtl else ttl
    {
      this.capacity := if capacity <= 0 then DEFAULT_CAPACITY else capacity;
      this.ttl := if ttl <= 0 then defaultTtl else ttl;
      items, order := map[], [];
    }

    method Get(key: string, now: int) returns (r: Option<int>)
      requires Valid()
      modifies this
      ensures Valid()
      ensures var step := Step(old(Contents()), capacity, Op.Get(key, now), Expired);
              && Contents() == step.0
              && r == if step.1.Some? then Some(step.1.value.count) else None
      ensures var held := key in old(items) && now <= old(items)[key].expireAt;
              && r == (if held then Some(old(items)[key].count) else None)
              && order == (if held then [key] else []) + Dropped(old(order), key)
              && items == if held then old(items) else old(items) - {key}
    {
      StepInvariant(Contents(), capacity, Op.Get(key, now), Expired);
      ViewFind(order, items, key);
      if key !in items {
        DroppedAbsent(order, key);
        return None;
      }
      DroppedMembers(order, key);
      var entry := items[key];
      if now > entry.expireAt {
        ViewDropped(order, items, items - {key}, key);
        order := Dropped(order, key);
        items := items - {key};
        return None;
      }
      ViewDropped(order, items, items, key);
      ViewCons(key, Dropped(order, key), items);
      order := [key] + Dropped(order, key);
      r := Some(entry.count);
    }

    method Set(key: string, count: int, now: int)
      requires Valid()
      modifies this
      ensures Valid()
      ensures Contents() == Put(old(Contents()), capacity, key, Timed(count, now + ttl))
    {
      var entry := Timed(count, now + ttl);
      StepInvariant(Contents(), capacity, Op.Set(key, entry), Expired);
      ViewFind(order, items, key);
      if key in items {
        DroppedMembers(order, key);
        ViewDropped(order, items, items[key := entry], key);
        items := items[key := entry];
        order := [key] + Dropped(order, key);
        assert Contents() == [Entry(key, entry)] + View(order[1..], items);
        return;
      }
      ghost var start := Contents();
      while |order| >= capacity
        invariant Valid() && key !in items
        invariant |order| < capacity ==> Contents() == if |start| >= capacity then start[..|start| - 1] else start
        invariant |order| == capacity ==> Contents() == start
        decreases |order|
      {
        RemoveBack();
      }
      PushFront(key, entry);
    }

    /** Drops the least recent entry. */
    method RemoveBack()
      requires Valid() && order != []
      modifies this
      ensures Valid() && Contents() == old(Contents()[..|order| - 1])
      ensures |order| == old(|order|) - 1 && items.Keys <= old(items.Keys)
    {
      var last := |order| - 1;
      var tail := order[last];
      ghost var before := Contents();
      assert forall i :: 0 <= i < |order| ==> before[i].key == order[i];
      items := items - {tail};
      order := order[..last];
      assert forall k :: k in old(order) <==> k in order || k == tail;
      assert Contents() == before[..last];
    }

    method PushFront(key: string, entry: Timed)
      requires Valid() && key !in items && |order| < capacity
      modifies this
      ensures Valid() && Contents() == [Entry(key, entry)] + old(Contents())
    {
      ghost var before := Contents();
      assert forall i :: 0 <= i < |order| ==> before[i].key == order[i];
      items := items[key := entry];
      order := [key] + order;
      assert Contents() == [Entry(key, entry)] + before;
    }

    method Len() returns (n: nat)
      requires Valid()
      ensures n == |Contents()|
    {
      n := |order|;
    }
  }

  // ---------- both levels as values ----------

  datatype Stats = Stats(hits: nat, misses: nat, localHits: nat, redisHits: nat, pythonCalls: nat, fallbackCalls: nat)

  const NO_STATS := Stats(0, 0, 0, 0, 0, 0)

  datatype Settings = Settings(capacity: nat, l1Ttl: int, l2Ttl: int, connected: bool, hash: Hash)

  /** Level 1, the shared level 2 and the shared counters. */
  datatype Store = Store(l1: Recency<Timed>, l2: map<string, Timed>, stats: Stats)

  datatype Source = LocalLru | Redis | PythonService | FallbackEstimate

  datatype Lookup = Hit(count: int, source: Source) | Miss

  /** Counters live in the shared store and do not move without a connection. */
  function Counted(c: Settings, before: Stats, after: Stats): Stats {
    if c.connected then after else before
  }

  function ReadL1(c: Settings, s: Store, key: string, now: int): (Store, Option<int>)
    requires 0 < c.capacity
  {
    var step := Step(s.l1, c.capacity, Op.Get(key, now), Expired);
    (s.(l1 := step.0), if step.1.Some? then Some(step.1.value.count) else None)
  }

  /** A read that fails, or meets an expired entry, is a miss. */
  function ReadL2(c: Settings, s: Store, key: string, now: int, ok: bool): Option<int> {
    if c.connected && ok && key in s.l2 && !Expired(s.l2[key], now) then Some(s.l2[key].count) else None
  }

  function WriteL1(c: Settings, s: Store, key: string, count: int, now: int): Store
    requires 0 < c.capacity
  {
    s.(l1 := Put(s.l1, c.capacity, key, Timed(count, now + c.l1Ttl)))
  }

  function WriteL2(c: Settings, s: Store, key: string, count: int, now: int, ok: bool): Store {
    if c.connected && ok then s.(l2 := s.l2[key := Timed(count, now + c.l2Ttl)]) else s
  }

  function CountLocalHit(c: Settings, s: Store): Store {
    s.(stats := Counted(c, s.stats, s.stats.(localHits := s.stats.localHits + 1)))
  }

  function CountRedisHit(c: Settings, s: Store): Store {
    s.(stats := Counted(c, s.stats, s.stats.(redisHits := s.stats.redisHits + 1)))
  }

  function CountHit(c: Settings, s: Store): Store {
    s.(stats := Counted(c, s.stats, s.stats.(hits := s.stats.hits + 1)))
  }

  function CountMiss(c: Settings, s: Store): Store {
    s.(stats := Counted(c, s.stats, s.stats.(misses := s.stats.misses + 1)))
  }

  function CountCall(c: Settings, s: Store, python: bool): Store {
    s.(stats := Counted(c, s.stats,
      if python then s.stats.(pythonCalls := s.stats.pythonCalls + 1)
      else s.stats.(fallbackCalls := s.stats.fallbackCalls + 1)))
  }

  /** When a look-up reads level 1, reads level 2 and refills level 1. */
  datatype ReadTimes = ReadTimes(l1: int, l2: int, refill: int)

  /** When a write reaches level 1 and level 2. */
  datatype WriteTimes = WriteTimes(l1: int, l2: int)

  /** Level 1, then level 2 with a refill of level 1, then a miss. */
  function LookUp(c: Settings, s: Store, key: string, at: ReadTimes, ok: bool): (Store, Lookup)
    requires 0 < c.capacity
  {
    var (s1, local) := ReadL1(c, s, key, at.l1);
    if local.Some? then (CountHit(c, CountLocalHit(c, s1)), Hit(local.value, LocalLru))
    else LookUpShared(c, s1, key, at.l2, at.refill, ok)
  }

  /** What a level-1 miss goes on with. */
  function LookUpShared(c: Settings, s: Store, key: string, readAt: int, refillAt: int, ok: bool): (Store, Lookup)
    requires 0 < c.capacity
  {
    var shared := ReadL2(c, s, key, readAt, ok);
    if shared.Some? then
      (CountHit(c, CountRedisHit(c, WriteL1(c, s, key, shared.value, refillAt))), Hit(shared.value, Redis))
    else (CountMiss(c, s), Miss)
  }

  function Save(c: Settings, s: Store, key: string, count: int, at: WriteTimes, ok: bool): Store
    requires 0 < c.capacity
  {
    WriteL2(c, WriteL1(c, s, key, count, at.l1), key, count, at.l2, ok)
  }

  // ---------- the estimate ----------

  datatype Request = Request(model: string, text: string)

  function KeyOf(c: Settings, r: Request): string {
    TokenKey(c.hash, r.model, r.text)
  }

  /** A quarter of the text's bytes, rounded up, but at least one. */
  function Fallback(text: string): int {
    var quarter := (|text| + 3) / 4;
    if quarter < 1 then 1 else quarter
  }

  lemma FallbackExact(text: string)
    ensures Fallback(text) >= 1
    ensures 4 * (Fallback(text) - 1) < |text| <= 4 * Fallback(text) || (text == "" && Fallback(text) == 1)
  {
  }

  /** What the outside does during one call: level-2 reads and writes may fail, and so may the
      tokenizer. */
  datatype Env = Env(readOk: bool, writeOk: bool, tokenized: Option<int>)

  datatype Answer = Answer(count: int, cached: bool, source: Source)

  function Estimate(c: Settings, s: Store, r: Request, read: ReadTimes, write: WriteTimes, env: Env): (Store, Answer)
    requires 0 < c.capacity
  {
    var (s1, found) := LookUp(c, s, KeyOf(c, r), read, env.readOk);
    match found
    case Hit(count, source) => (s1, Answer(count, true, source))
    case Miss => EstimateAnew(c, s1, r, write, env)
  }

  /** What a miss goes on with: the tokenizer's count or the fallback, stored either way. */
  function EstimateAnew(c: Settings, s: Store, r: Request, write: WriteTimes, env: Env): (Store, Answer)
    requires 0 < c.capacity
  {
    match env.tokenized
    case Some(count) =>
      (Save(c, CountCall(c, s, true), KeyOf(c, r), count, write, env.writeOk), Answer(count, false, PythonService))
    case None =>
      var count := Fallback(r.text);
      (Save(c, CountCall(c, s, false), KeyOf(c, r), count, write, env.writeOk), Answer(count, false, FallbackEstimate))
  }

  class TwoLevelTokenCache {
    const settings: Settings
    const l1: LocalLRU
    var l2: map<string, Timed>
    var stats: Stats

    ghost predicate Valid()
      reads this, l1
    {
      l1.Valid() && l1.capacity == settings.capacity && l1.ttl == settings.l1Ttl
    }

    ghost function Abstract(): Store
      reads this, l1
      requires Valid()
    {
      Store(l1.Contents(), l2, stats)
    }

    constructor (connected: bool, l1Capacity: int, l1Ttl: int, l2Ttl: int, hash: Hash)
      ensures Valid() && Abstract() == Store([], map[], Stats(0, 0, 0, 0, 0, 0)) && fresh(l1)
      ensures settings.connected == connected && settings.hash == hash
      ensures settings.capacity == if l1Capacity <= 0 then 10000 else l1Capacity
      ensures settings.l1Ttl == if l1Ttl <= 0 then 300_000_000_000 else l1Ttl
      ensures settings.l2Ttl == if l2Ttl <= 0 then 3_600_000_000_000 else l2Ttl
    {
      var local := new LocalLRU(l1Capacity, l1Ttl, 300_000_000_000);
      l1 := local;
      settings := Settings(local.capacity, local.ttl, if l2Ttl <= 0 then 3_600_000_000_000 else l2Ttl, connected, hash);
      l2, stats := map[], NO_STATS;
    }

    method Get(model: string, text: string, at: ReadTimes, readOk: bool) returns (r: Lookup)
      requires Valid()
      modifies this, l1
      ensures Valid()
      ensures (Abstract(), r) == LookUp(settings, old(Abstract()), KeyOf(settings, Request(model, text)), at, readOk)
    {
      var key := TokenKey(settings.hash, model, text);
      var local := l1.Get(key, at.l1);
      if local.Some? {
        if settings.connected {
          stats := stats.(localHits := stats.localHits + 1);
          stats := stats.(hits := stats.hits + 1);
        }
        return Hit(local.value, LocalLru);
      }
      r := GetShared(key, at.l2, at.refill, readOk);
    }

    /** The refill reads the clock again, after the answer of level 2 has arrived. */
    method GetShared(key: string, readAt: int, refillAt: int, readOk: bool) returns (r: Lookup)
      requires Valid()
      modifies this, l1
      ensures Valid()
      ensures (Abstract(), r) == LookUpShared(settings, old(Abstract()), key, readAt, refillAt, readOk)
    {
      if settings.connected && readOk && key in l2 && !Expired(l2[key], readAt) {
        var count := l2[key].count;
        l1.Set(key, count, refillAt);
        if settings.connected {
          stats := stats.(redisHits := stats.redisHits + 1);
          stats := stats.(hits := stats.hits + 1);
        }
        return Hit(count, Redis);
      }
      if settings.connected {
        stats := stats.(misses := stats.misses + 1);
      }
      r := Miss;
    }

    method Set(model: string, text: string, count: int, at: WriteTimes, writeOk: bool)
      requires Valid()
      modifies this, l1
      ensures Valid()
      ensures Abstract() == Save(settings, old(Abstract()), KeyOf(settings, Request(model, text)), count, at, writeOk)
    {
      var key := TokenKey(settings.hash, model, text);
      l1.Set(key, count, at.l1);
      if settings.connected && writeOk {
        l2 := l2[key := Timed(count, at.l2 + settings.l2Ttl)];
      }
    }

    /** A failed tokenizer call falls back to an estimate, which is cached like a real count. */
    method EstimatePromptTokens(model: string, text: string, read: ReadTimes, write: WriteTimes, env: Env)
      returns (a: Answer)
      requires Valid()
      modifies this, l1
      ensures Valid()
      ensures (Abstract(), a) == Estimate(settings, old(Abstract()), Request(model, text), read, write, env)
    {
      var found := Get(model, text, read, env.readOk);
      if found.Hit? {
        return Answer(found.count, true, found.source);
      }
      if env.tokenized.None? {
        var estimated := (|text| + 3) / 4;
        if estimated < 1 {
          estimated := 1;
        }
        if settings.connected {
          stats := stats.(fallbackCalls := stats.fallbackCalls + 1);
        }
        Set(model, text, estimated, write, env.writeOk);
        return Answer(estimated, false, FallbackEstimate);
      }
      if settings.connected {
        stats := stats.(pythonCalls := stats.pythonCalls + 1);
      }
      Set(model, text, env.tokenized.value, write, env.writeOk);
      a := Answer(env.tokenized.value, false, PythonService);
    }
  }
}
