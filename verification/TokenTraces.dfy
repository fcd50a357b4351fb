/** Sequential use of the two-level token cache: what a hit can return after any trace of look-ups
    and writes, whatever fails at level 2 or is dropped there, and how old it can be.
 */
module TokenTraces {
  import opened Numbers
  import opened Wrappers
  import opened RecencyList
  import opened CacheKeys
  import opened TokenCache

  /** A look-up or a write, where `ok` says whether its access to level 2 succeeds, or level 2
      dropping a key by itself. */
  datatype CacheOp =
    | Ask(request: Request, read: ReadTimes, ok: bool)
    | Tell(request: Request, count: int, write: WriteTimes, ok: bool)
    | Drop(key: string, at: int)

  const EMPTY := Store([], map[], NO_STATS)

  function Perform(c: Settings, s: Store, op: CacheOp): (Store, Lookup)
    requires 0 < c.capacity
  {
    match op
    case Ask(r, read, ok) => LookUp(c, s, KeyOf(c, r), read, ok)
    case Tell(r, count, write, ok) => (Save(c, s, KeyOf(c, r), count, write, ok), Miss)
    case Drop(key, _) => (s.(l2 := s.l2 - {key}), Miss)
  }

  function PerformFrom(c: Settings, s: Store, ops: seq<CacheOp>): Store
    requires 0 < c.capacity
  {
    if ops == [] then s else Perform(c, PerformFrom(c, s, ops[..|ops| - 1]), ops[|ops| - 1]).0
  }

  function PerformAll(c: Settings, ops: seq<CacheOp>): Store
    requires 0 < c.capacity
  {
    PerformFrom(c, EMPTY, ops)
  }

  predicate Tells(c: Settings, op: CacheOp, key: string) {
    op.Tell? && KeyOf(c, op.request) == key
  }

  /** The count most recently told under this key. */
  function LastTold(c: Settings, ops: seq<CacheOp>, key: string): Option<int> {
    if ops == [] then None
    else
      var last := ops[|ops| - 1];
      if Tells(c, last, key) then Some(last.count) else LastTold(c, ops[..|ops| - 1], key)
  }

  /** The count most recently told under this key that got through to level 2, with its end of life. */
  function LastWritten(c: Settings, ops: seq<CacheOp>, key: string): Option<Timed> {
    if ops == [] then None
    else
      var last := ops[|ops| - 1];
      if Tells(c, last, key) && c.connected && last.ok then Some(Timed(last.count, last.write.l2 + c.l2Ttl))
      else LastWritten(c, ops[..|ops| - 1], key)
  }

  /** The same, unless the key has been dropped since. */
  function LastKept(c: Settings, ops: seq<CacheOp>, key: string): Option<Timed> {
    if ops == [] then None
    else
      var last := ops[|ops| - 1];
      if Tells(c, last, key) && c.connected && last.ok then Some(Timed(last.count, last.write.l2 + c.l2Ttl))
      else if last.Drop? && last.key == key then None
      else LastKept(c, ops[..|ops| - 1], key)
  }

  lemma {:induction false} KeptWasWritten(c: Settings, ops: seq<CacheOp>, key: string)
    ensures LastKept(c, ops, key).Some? ==> LastKept(c, ops, key) == LastWritten(c, ops, key) && c.connected
  {
    if ops != [] { KeptWasWritten(c, ops[..|ops| - 1], key); }
  }

  lemma {:induction false} PerformConcat(c: Settings, s: Store, a: seq<CacheOp>, b: seq<CacheOp>)
    requires 0 < c.capacity
    ensures PerformFrom(c, s, a + b) == PerformFrom(c, PerformFrom(c, s, a), b)
  {
    if b == [] {
      assert a + b == a;
    } else {
      assert (a + b)[..|a + b| - 1] == a + b[..|b| - 1];
      PerformConcat(c, s, a, b[..|b| - 1]);
    }
  }

  lemma {:induction false} PerformSnoc(c: Settings, s: Store, ops: seq<CacheOp>, op: CacheOp)
    requires 0 < c.capacity
    ensures PerformFrom(c, s, ops + [op]) == Perform(c, PerformFrom(c, s, ops), op).0
  {
    assert (ops + [op])[..|ops|] == ops;
  }

  // ---------- what one operation does to the levels ----------

  /** An entry of level 1 after a look-up was there before, or carries the count of a level-2 entry
      that was still good. */
  lemma LookUpEntry(c: Settings, s: Store, key: string, at: ReadTimes, ok: bool, e: Entry<Timed>)
    requires 0 < c.capacity && e in LookUp(c, s, key, at, ok).0.l1
    ensures e in s.l1 || (e.key == key && key in s.l2 && at.l2 <= s.l2[key].expireAt &&
                          e.value == Timed(s.l2[key].count, at.refill + c.l1Ttl))
  {
    FindIffKey(s.l1, key);
    WithoutMembers(s.l1, key);
    var rest := Without(s.l1, key);
    FindIffKey(rest, key);
    WithoutMembers(rest, key);
  }

  lemma LookUpLeavesL2(c: Settings, s: Store, key: string, at: ReadTimes, ok: bool)
    requires 0 < c.capacity
    ensures LookUp(c, s, key, at, ok).0.l2 == s.l2
  {
  }

  lemma SaveEntry(c: Settings, s: Store, key: string, count: int, at: WriteTimes, ok: bool, e: Entry<Timed>)
    requires 0 < c.capacity && e in Save(c, s, key, count, at, ok).l1
    ensures (e in s.l1 && e.key != key) || e == Entry(key, Timed(count, at.l1 + c.l1Ttl))
  {
    FindIffKey(s.l1, key);
    WithoutMembers(s.l1, key);
    if Find(s.l1, key).None? && e in s.l1 {
      assert e.key in Keys(s.l1);
    }
  }

  /** What a hit returned came from an entry of one of the levels that was still good. */
  lemma HitEntry(c: Settings, s: Store, key: string, at: ReadTimes, ok: bool) returns (v: Timed)
    requires 0 < c.capacity && LookUp(c, s, key, at, ok).1.Hit?
    ensures var found := LookUp(c, s, key, at, ok).1;
            && v.count == found.count
            && (found.source == LocalLru ==> Find(s.l1, key) == Some(v) && at.l1 <= v.expireAt)
            && (found.source != LocalLru ==> key in s.l2 && s.l2[key] == v && at.l2 <= v.expireAt)
  {
    var local := Find(s.l1, key);
    if local.Some? && !Expired(local.value, at.l1) {
      v := local.value;
    } else {
      v := s.l2[key];
    }
  }

  lemma {:induction false} FindIsMember(l1: Recency<Timed>, key: string)
    ensures Find(l1, key).Some? ==> Entry(key, Find(l1, key).value) in l1
  {
    FindIffKey(l1, key);
  }

  ghost predicate Bounded(c: Settings, s: Store) {
    Distinct(s.l1) && |s.l1| <= c.capacity
  }

  lemma PerformBounded(c: Settings, s: Store, op: CacheOp)
    requires 0 < c.capacity && Bounded(c, s)
    ensures Bounded(c, Perform(c, s, op).0)
  {
    if op.Tell? {
      var key := KeyOf(c, op.request);
      StepInvariant(s.l1, c.capacity, Op.Set(key, Timed(op.count, op.write.l1 + c.l1Ttl)), Expired);
    } else if op.Ask? {
      var key := KeyOf(c, op.request);
      StepInvariant(s.l1, c.capacity, Op.Get(key, op.read.l1), Expired);
      var l1 := ReadL1(c, s, key, op.read.l1).0.l1;
      var count := if key in s.l2 then s.l2[key].count else 0;
      StepInvariant(l1, c.capacity, Op.Set(key, Timed(count, op.read.refill + c.l1Ttl)), Expired);
    }
  }

  lemma {:induction false} AlwaysBounded(c: Settings, s: Store, ops: seq<CacheOp>)
    requires 0 < c.capacity && Bounded(c, s)
    ensures Bounded(c, PerformFrom(c, s, ops))
  {
    if ops != [] {
      AlwaysBounded(c, s, ops[..|ops| - 1]);
      PerformBounded(c, PerformFrom(c, s, ops[..|ops| - 1]), ops[|ops| - 1]);
    }
  }

  // ---------- what the levels hold ----------

  function Shared(s: Store, key: string): Option<Timed> {
    if key in s.l2 then Some(s.l2[key]) else None
  }

  /** Level 2 holds, under every key, exactly what last got through to it, unless it dropped the key. */
  lemma {:induction false} SharedIsLastKept(c: Settings, ops: seq<CacheOp>, key: string)
    requires 0 < c.capacity
    ensures Shared(PerformAll(c, ops), key) == LastKept(c, ops, key)
  {
    if ops != [] {
      SharedIsLastKept(c, ops[..|ops| - 1], key);
    }
  }

  predicate LastOfEither(c: Settings, ops: seq<CacheOp>, key: string, count: int) {
    || LastTold(c, ops, key) == Some(count)
    || (LastWritten(c, ops, key).Some? && LastWritten(c, ops, key).value.count == count)
  }

  /** Level 1 holds, under every key, the count last told or the one that last got through to level 2. */
  lemma {:induction false} LocalIsLastOfEither(c: Settings, ops: seq<CacheOp>, e: Entry<Timed>)
    requires 0 < c.capacity && e in PerformAll(c, ops).l1
    ensures LastOfEither(c, ops, e.key, e.value.count)
  {
    if ops != [] {
      var init, last := ops[..|ops| - 1], ops[|ops| - 1];
      var s := PerformAll(c, init);
      if last.Ask? {
        var key := KeyOf(c, last.request);
        LookUpEntry(c, s, key, last.read, last.ok, e);
        SharedIsLastKept(c, init, key);
        KeptWasWritten(c, init, key);
      } else if last.Tell? {
        SaveEntry(c, s, KeyOf(c, last.request), last.count, last.write, last.ok, e);
      }
      if e in s.l1 { LocalIsLastOfEither(c, init, e); }
    }
  }

  /** Whatever fails: a hit returns the count last told or the one that last got through. */
  lemma HitIsLastOfEither(c: Settings, ops: seq<CacheOp>, key: string, at: ReadTimes, ok: bool)
    requires 0 < c.capacity
    ensures var found := LookUp(c, PerformAll(c, ops), key, at, ok).1;
            found.Hit? ==> LastOfEither(c, ops, key, found.count)
  {
    var s := PerformAll(c, ops);
    if LookUp(c, s, key, at, ok).1.Hit? {
      var v := HitEntry(c, s, key, at, ok);
      FindIsMember(s.l1, key);
      SharedIsLastKept(c, ops, key);
      KeptWasWritten(c, ops, key);
      if Find(s.l1, key) == Some(v) { LocalIsLastOfEither(c, ops, Entry(key, v)); }
    }
  }

  // ---------- the most recent count ----------

  ghost predicate KeysUnambiguous(c: Settings, ops: seq<CacheOp>) {
    forall i, j :: 0 <= i < |ops| && 0 <= j < |ops| && !ops[i].Drop? && !ops[j].Drop? ==>
      (KeyOf(c, ops[i].request) == KeyOf(c, ops[j].request) ==> ops[i].request == ops[j].request)
  }

  /** Operation `i` is the last one that told a count for this very request. */
  ghost predicate LastTeller(ops: seq<CacheOp>, r: Request, i: nat) {
    && i < |ops| && ops[i].Tell? && ops[i].request == r
    && forall j :: i < j < |ops| ==> !(ops[j].Tell? && ops[j].request == r)
  }

  lemma {:induction false} LastToldByKey(c: Settings, ops: seq<CacheOp>, r: Request)
    requires forall i :: 0 <= i < |ops| && !ops[i].Drop? && KeyOf(c, ops[i].request) == KeyOf(c, r) ==>
               ops[i].request == r
    ensures LastTold(c, ops, KeyOf(c, r)).Some? ==>
              exists i: nat :: LastTeller(ops, r, i) && LastTold(c, ops, KeyOf(c, r)) == Some(ops[i].count)
  {
    if ops != [] {
      var init, last := ops[..|ops| - 1], ops[|ops| - 1];
      if Tells(c, last, KeyOf(c, r)) {
        assert LastTeller(ops, r, |init|);
      } else {
        LastToldByKey(c, init, r);
        if LastTold(c, init, KeyOf(c, r)).Some? {
          var i: nat :| LastTeller(init, r, i) && LastTold(c, init, KeyOf(c, r)) == Some(init[i].count);
          assert ops[i] == init[i] && LastTeller(ops, r, i);
        }
      }
    }
  }

  /** Nothing other than the last told count ever got through last. */
  predicate NothingOlder(c: Settings, ops: seq<CacheOp>, key: string) {
    var written := LastWritten(c, ops, key);
    written.None? || LastTold(c, ops, key) == Some(written.value.count)
  }

  /** Whatever else fails: unless an older count is the last that got through to level 2, a hit
      returns the count most recently told for that very request. */
  lemma HitIsMostRecent(c: Settings, ops: seq<CacheOp>, r: Request, at: ReadTimes, ok: bool)
    requires 0 < c.capacity && KeysUnambiguous(c, ops + [Ask(r, at, ok)])
    requires NothingOlder(c, ops, KeyOf(c, r))
    ensures var found := LookUp(c, PerformAll(c, ops), KeyOf(c, r), at, ok).1;
            found.Hit? ==> exists i: nat :: LastTeller(ops, r, i) && ops[i].count == found.count
  {
    HitIsLastOfEither(c, ops, KeyOf(c, r), at, ok);
    var all := ops + [Ask(r, at, ok)];
    forall i | 0 <= i < |ops| && !ops[i].Drop? && KeyOf(c, ops[i].request) == KeyOf(c, r)
      ensures ops[i].request == r
    {
      assert all[i] == ops[i] && all[|ops|].request == r;
    }
    LastToldByKey(c, ops, r);
  }

  // ---------- pushing a key out of level 1 ----------

  function Padded(model: string, n: nat): string {
    if n == 0 then model else Padded(model, n - 1) + "x"
  }

  lemma {:induction false} PaddedLength(model: string, n: nat)
    ensures |Padded(model, n)| == |model| + n
  {
    if n > 0 { PaddedLength(model, n - 1); }
  }

  function OtherRequest(r: Request, n: nat): Request {
    Request(Padded(r.model, n), r.text)
  }

  lemma OtherKeysDiffer(c: Settings, r: Request, m: nat, n: nat)
    requires FixedLength(c.hash) && m != n
    ensures KeyOf(c, OtherRequest(r, m)) != KeyOf(c, OtherRequest(r, n))
  {
    PaddedLength(r.model, m);
    PaddedLength(r.model, n);
    TokenKeyExact(c.hash, Padded(r.model, m), r.text, Padded(r.model, n), r.text);
  }

  /** `n` writes for other models at time `now`, none of which reaches level 2. */
  function Crowd(r: Request, n: nat, now: int): (ops: seq<CacheOp>)
    ensures |ops| == n
    ensures forall i :: 0 <= i < n ==> ops[i] == Tell(OtherRequest(r, i + 1), 0, WriteTimes(now, now), false)
  {
    if n == 0 then [] else Crowd(r, n - 1, now) + [Tell(OtherRequest(r, n), 0, WriteTimes(now, now), false)]
  }

  /** The first `n` entries of level 1 belong to the crowd. */
  ghost predicate CrowdInFront(c: Settings, l1: Recency<Timed>, r: Request, n: nat) {
    n <= |l1| && forall i :: 0 <= i < n ==> exists j :: 1 <= j <= n && l1[i].key == KeyOf(c, OtherRequest(r, j))
  }

  lemma CrowdAt(c: Settings, l1: Recency<Timed>, r: Request, n: nat, i: nat) returns (j: nat)
    requires CrowdInFront(c, l1, r, n) && i < n
    ensures 1 <= j <= n && l1[i].key == KeyOf(c, OtherRequest(r, j))
  {
    j :| 1 <= j <= n && l1[i].key == KeyOf(c, OtherRequest(r, j));
  }

  lemma {:induction false} WithoutKeepsFront(l1: Recency<Timed>, key: string, n: nat)
    requires n <= |l1| && forall i :: 0 <= i < n ==> l1[i].key != key
    ensures n <= |Without(l1, key)| && Without(l1, key)[..n] == l1[..n]
  {
    if n > 0 {
      WithoutKeepsFront(l1[1..], key, n - 1);
      assert l1[..n] == [l1[0]] + l1[1..][..n - 1];
    }
  }

  lemma CrowdGrows(c: Settings, l1: Recency<Timed>, r: Request, n: nat, v: Timed)
    requires 0 < c.capacity && FixedLength(c.hash) && Distinct(l1) && |l1| <= c.capacity && n < c.capacity
    requires CrowdInFront(c, l1, r, n)
    ensures CrowdInFront(c, Put(l1, c.capacity, KeyOf(c, OtherRequest(r, n + 1)), v), r, n + 1)
  {
    var key := KeyOf(c, OtherRequest(r, n + 1));
    forall i | 0 <= i < n ensures l1[i].key != key {
      var j := CrowdAt(c, l1, r, n, i);
      OtherKeysDiffer(c, r, j, n + 1);
    }
    WithoutKeepsFront(l1, key, n);
    var more := Put(l1, c.capacity, key, v);
    assert |more| >= n + 1 && more[0].key == key && more[1..n + 1] == l1[..n];
    forall i | 0 <= i < n + 1 ensures exists j :: 1 <= j <= n + 1 && more[i].key == KeyOf(c, OtherRequest(r, j)) {
      if i == 0 {
        assert more[0].key == KeyOf(c, OtherRequest(r, n + 1));
      } else {
        assert more[i] == more[1..n + 1][i - 1] == l1[i - 1];
        var j := CrowdAt(c, l1, r, n, i - 1);
      }
    }
  }

  /** The write that the `n`th of the crowd makes. */
  function CrowdTell(r: Request, n: nat, now: int): CacheOp {
    Tell(OtherRequest(r, n), 0, WriteTimes(now, now), false)
  }

  /** The first `n` of the crowd are in front, and level 2 is `l2`. */
  ghost predicate Filled(c: Settings, s: Store, r: Request, n: nat, l2: map<string, Timed>) {
    Bounded(c, s) && CrowdInFront(c, s.l1, r, n) && s.l2 == l2
  }

  lemma CrowdJoins(c: Settings, s: Store, r: Request, n: nat, now: int, l2: map<string, Timed>)
    requires 0 < c.capacity && FixedLength(c.hash) && n < c.capacity && Filled(c, s, r, n, l2)
    ensures Filled(c, Perform(c, s, CrowdTell(r, n + 1, now)).0, r, n + 1, l2)
  {
    PerformBounded(c, s, CrowdTell(r, n + 1, now));
    CrowdGrows(c, s.l1, r, n, Timed(0, now + c.l1Ttl));
  }

  lemma CrowdStep(c: Settings, s: Store, r: Request, n: nat, now: int)
    requires 0 < c.capacity
    ensures PerformFrom(c, s, Crowd(r, n + 1, now)) ==
            Perform(c, PerformFrom(c, s, Crowd(r, n, now)), CrowdTell(r, n + 1, now)).0
  {
    PerformSnoc(c, s, Crowd(r, n, now), CrowdTell(r, n + 1, now));
  }

  lemma {:induction false} CrowdFills(c: Settings, s: Store, r: Request, n: nat, now: int)
    requires 0 < c.capacity && FixedLength(c.hash) && Bounded(c, s) && n <= c.capacity
    ensures Filled(c, PerformFrom(c, s, Crowd(r, n, now)), r, n, s.l2)
  {
    if n > 0 {
      CrowdFills(c, s, r, n - 1, now);
      CrowdStep(c, s, r, n - 1, now);
      CrowdJoins(c, PerformFrom(c, s, Crowd(r, n - 1, now)), r, n - 1, now, s.l2);
    }
  }

  /** As many other keys as level 1 has room for leave no room for this one, and level 2 alone. */
  lemma {:induction false} CrowdEvicts(c: Settings, s: Store, r: Request, now: int)
    requires 0 < c.capacity && FixedLength(c.hash) && Bounded(c, s)
    ensures var s' := PerformFrom(c, s, Crowd(r, c.capacity, now));
            Bounded(c, s') && Find(s'.l1, KeyOf(c, r)) == None && s'.l2 == s.l2
  {
    CrowdFills(c, s, r, c.capacity, now);
    var l1 := PerformFrom(c, s, Crowd(r, c.capacity, now)).l1;
    FindIffKey(l1, KeyOf(c, r));
    forall i | 0 <= i < |l1| ensures l1[i].key != KeyOf(c, r) {
      var j := CrowdAt(c, l1, r, c.capacity, i);
      assert OtherRequest(r, 0) == r;
      OtherKeysDiffer(c, r, j, 0);
    }
  }

  // ---------- exactly when an older count can come back ----------

  predicate ReadsFrom(at: ReadTimes, start: int) {
    start <= at.l1 && start <= at.l2 && start <= at.refill
  }

  /** Every clock reading of the operation is at `start` or later. */
  predicate NotBefore(op: CacheOp, start: int) {
    match op
    case Ask(_, read, _) => ReadsFrom(read, start)
    case Tell(_, _, write, _) => start <= write.l1 && start <= write.l2
    case Drop(_, at) => start <= at
  }

  /** `more` goes on from time `start` without telling a new count for the key. */
  ghost predicate GoesOn(c: Settings, more: seq<CacheOp>, key: string, start: int) {
    forall i :: 0 <= i < |more| ==> NotBefore(more[i], start) && !Tells(c, more[i], key)
  }

  ghost predicate AnswersLast(c: Settings, ops: seq<CacheOp>, key: string, more: seq<CacheOp>, at: ReadTimes, ok: bool)
    requires 0 < c.capacity
  {
    var found := LookUp(c, PerformAll(c, ops + more), key, at, ok).1;
    found.Hit? ==> LastTold(c, ops, key) == Some(found.count)
  }

  /** From `start` on, however the trace goes on until the next count is told, every hit is the
      last told count. */
  ghost predicate Settled(c: Settings, ops: seq<CacheOp>, key: string, start: int)
    requires 0 < c.capacity
  {
    forall more, at, ok :: GoesOn(c, more, key, start) && ReadsFrom(at, start) ==>
      AnswersLast(c, ops, key, more, at, ok)
  }

  /** An entry with another count that is still good at `start`. */
  predicate Outlives(v: Option<Timed>, told: Option<int>, start: int) {
    v.Some? && told != Some(v.value.count) && start <= v.value.expireAt
  }

  /** Some level still holds an older count at `start`: what last got through to level 2 and was
      not dropped, or the entry of level 1. */
  predicate OlderAlive(c: Settings, ops: seq<CacheOp>, key: string, start: int)
    requires 0 < c.capacity
  {
    || Outlives(LastKept(c, ops, key), LastTold(c, ops, key), start)
    || Outlives(Find(PerformAll(c, ops).l1, key), LastTold(c, ops, key), start)
  }

  ghost predicate Clean(s: Store, key: string, told: Option<int>, start: int) {
    && !Outlives(Shared(s, key), told, start)
    && forall e :: e in s.l1 && e.key == key ==> !Outlives(Some(e.value), told, start)
  }

  lemma CleanStep(c: Settings, s: Store, op: CacheOp, key: string, told: Option<int>, start: int)
    requires 0 < c.capacity && Clean(s, key, told, start) && NotBefore(op, start) && !Tells(c, op, key)
    ensures Clean(Perform(c, s, op).0, key, told, start)
  {
    var s' := Perform(c, s, op).0;
    if op.Ask? { LookUpLeavesL2(c, s, KeyOf(c, op.request), op.read, op.ok); }
    forall e | e in s'.l1 && e.key == key ensures !Outlives(Some(e.value), told, start) {
      if op.Ask? {
        LookUpEntry(c, s, KeyOf(c, op.request), op.read, op.ok, e);
      } else if op.Tell? {
        SaveEntry(c, s, KeyOf(c, op.request), op.count, op.write, op.ok, e);
      }
    }
  }

  lemma {:induction false} StaysClean(c: Settings, s: Store, more: seq<CacheOp>, key: string,
                                      told: Option<int>, start: int)
    requires 0 < c.capacity && Clean(s, key, told, start) && GoesOn(c, more, key, start)
    ensures Clean(PerformFrom(c, s, more), key, told, start)
  {
    if more != [] {
      StaysClean(c, s, more[..|more| - 1], key, told, start);
      CleanStep(c, PerformFrom(c, s, more[..|more| - 1]), more[|more| - 1], key, told, start);
    }
  }

  lemma CleanAnswers(c: Settings, ops: seq<CacheOp>, key: string, start: int,
                     more: seq<CacheOp>, at: ReadTimes, ok: bool)
    requires 0 < c.capacity && !OlderAlive(c, ops, key, start)
    requires GoesOn(c, more, key, start) && ReadsFrom(at, start)
    ensures AnswersLast(c, ops, key, more, at, ok)
  {
    var s, told := PerformAll(c, ops), LastTold(c, ops, key);
    SharedIsLastKept(c, ops, key);
    AlwaysBounded(c, EMPTY, ops);
    forall e | e in s.l1 && e.key == key ensures !Outlives(Some(e.value), told, start) {
      var i :| 0 <= i < |s.l1| && s.l1[i] == e;
      FindAt(s.l1, i);
    }
    StaysClean(c, s, more, key, told, start);
    PerformConcat(c, EMPTY, ops, more);
    var s' := PerformAll(c, ops + more);
    if LookUp(c, s', key, at, ok).1.Hit? {
      var v := HitEntry(c, s', key, at, ok);
      FindIsMember(s'.l1, key);
    }
  }

  /** An older count that is alive is served by some continuation at the single instant `start`:
      at once from level 1, or from level 2 after other keys have filled level 1. */
  lemma OlderIsServed(c: Settings, ops: seq<CacheOp>, r: Request, start: int) returns (more: seq<CacheOp>)
    requires 0 < c.capacity && FixedLength(c.hash) && OlderAlive(c, ops, KeyOf(c, r), start)
    ensures GoesOn(c, more, KeyOf(c, r), start)
    ensures !AnswersLast(c, ops, KeyOf(c, r), more, ReadTimes(start, start, start), true)
  {
    var s, key := PerformAll(c, ops), KeyOf(c, r);
    if Outlives(Find(s.l1, key), LastTold(c, ops, key), start) {
      more := [];
      assert ops + more == ops;
    } else {
      more := Crowd(r, c.capacity, start);
      forall i | 0 <= i < |more| ensures NotBefore(more[i], start) && !Tells(c, more[i], key) {
        assert OtherRequest(r, 0) == r;
        OtherKeysDiffer(c, r, i + 1, 0);
      }
      AlwaysBounded(c, EMPTY, ops);
      CrowdEvicts(c, s, r, start);
      PerformConcat(c, EMPTY, ops, more);
      SharedIsLastKept(c, ops, key);
      KeptWasWritten(c, ops, key);
    }
  }

  /** The most recent count is all that can be served from `start` on exactly if neither level still
      holds an older one at that time. */
  lemma SettledIff(c: Settings, ops: seq<CacheOp>, r: Request, start: int)
    requires 0 < c.capacity && FixedLength(c.hash)
    ensures Settled(c, ops, KeyOf(c, r), start) <==> !OlderAlive(c, ops, KeyOf(c, r), start)
  {
    if OlderAlive(c, ops, KeyOf(c, r), start) {
      var more := OlderIsServed(c, ops, r, start);
      assert ReadsFrom(ReadTimes(start, start, start), start);
    } else {
      forall more, at, ok | GoesOn(c, more, KeyOf(c, r), start) && ReadsFrom(at, start)
        ensures AnswersLast(c, ops, KeyOf(c, r), more, at, ok)
      {
        CleanAnswers(c, ops, KeyOf(c, r), start, more, at, ok);
      }
    }
  }

  /** A write puts an end to older counts exactly if it gets through to level 2, or level 2 holds
      nothing from before it, or holds the same count, or its life is over. */
  lemma {:induction false} TellSettlesIff(c: Settings, before: seq<CacheOp>, r: Request, count: int,
                       write: WriteTimes, ok: bool, start: int)
    requires 0 < c.capacity && FixedLength(c.hash)
    ensures Settled(c, before + [Tell(r, count, write, ok)], KeyOf(c, r), start) <==>
            var kept := LastKept(c, before, KeyOf(c, r));
            || (c.connected && ok) || kept.None? || kept.value.count == count || kept.value.expireAt < start
  {
    var tell, key := Tell(r, count, write, ok), KeyOf(c, r);
    var ops := before + [tell];
    assert ops[..|ops| - 1] == before && ops[|ops| - 1] == tell;
    PerformSnoc(c, EMPTY, before, tell);
    assert LastTold(c, ops, key) == Some(count);
    assert PerformAll(c, ops).l1[0] == Entry(key, Timed(count, write.l1 + c.l1Ttl));
    SettledIff(c, ops, r, start);
  }

  /** The smallest case: one failed level-2 write, and the count it should have replaced is served
      again as soon as level 1 has let go of the new one. */
  lemma {:induction false} FailedWriteServesOlderCount(c: Settings, r: Request, older: int, newer: int)
    requires 0 < c.capacity && c.connected && 0 <= c.l1Ttl < c.l2Ttl && older != newer
    ensures var ops := [Tell(r, older, WriteTimes(0, 0), true), Tell(r, newer, WriteTimes(0, 0), false)];
            var at := c.l1Ttl + 1;
            && LastTold(c, ops, KeyOf(c, r)) == Some(newer)
            && LookUp(c, PerformAll(c, ops), KeyOf(c, r), ReadTimes(at, at, at), true).1 == Hit(older, Redis)
  {
    var first, second := Tell(r, older, WriteTimes(0, 0), true), Tell(r, newer, WriteTimes(0, 0), false);
    var ops, key := [first, second], KeyOf(c, r);
    PerformSnoc(c, EMPTY, [], first);
    PerformSnoc(c, EMPTY, [first], second);
    assert [] + [first] == [first] && [first] + [second] == ops && ops[..1] == [first];
    var s1 := Perform(c, EMPTY, first).0;
    var s2 := Perform(c, s1, second).0;
    assert PerformAll(c, [first]) == s1 && PerformAll(c, ops) == s2;
    assert s1.l1 == [Entry(key, Timed(older, c.l1Ttl))];
    assert Find(s1.l1, key) == Some(Timed(older, c.l1Ttl)) && Without(s1.l1, key) == [];
    assert s2.l1 == [Entry(key, Timed(newer, c.l1Ttl))];
  }

  // ---------- how old a hit can be ----------

  function Begins(op: CacheOp): int {
    match op
    case Ask(_, read, _) => read.l1
    case Tell(_, _, write, _) => write.l1
    case Drop(_, at) => at
  }

  function Ends(op: CacheOp): int {
    match op
    case Ask(_, read, _) => read.refill
    case Tell(_, _, write, _) => write.l2
    case Drop(_, at) => at
  }

  predicate InOrder(op: CacheOp) {
    match op
    case Ask(_, read, _) => read.l1 <= read.l2 <= read.refill
    case Tell(_, _, write, _) => write.l1 <= write.l2
    case Drop(_, _) => true
  }

  /** One operation after the other, on a clock that never runs backwards. */
  ghost predicate Sequential(ops: seq<CacheOp>) {
    && (forall i :: 0 <= i < |ops| ==> InOrder(ops[i]))
    && (forall i, j :: 0 <= i < j < |ops| ==> Ends(ops[i]) <= Begins(ops[j]))
  }

  function Delay(op: CacheOp): nat {
    if op.Ask? && op.read.refill > op.read.l2 then op.read.refill - op.read.l2 else 0
  }

  /** The look-up misses level 1 and finds its count in level 2. */
  predicate Refills(c: Settings, s: Store, op: CacheOp)
    requires 0 < c.capacity
  {
    op.Ask? && var found := Perform(c, s, op).1; found.Hit? && found.source == Redis
  }

  /** How long the last operation delays a refill. */
  function LastDelay(c: Settings, ops: seq<CacheOp>): nat
    requires 0 < c.capacity && ops != []
  {
    if Refills(c, PerformAll(c, ops[..|ops| - 1]), ops[|ops| - 1]) then Delay(ops[|ops| - 1]) else 0
  }

  /** The longest time that passes between reading level 2 and refilling level 1. */
  function Lag(c: Settings, ops: seq<CacheOp>): nat
    requires 0 < c.capacity
  {
    if ops == [] then 0 else Max(Lag(c, ops[..|ops| - 1]), LastDelay(c, ops))
  }

  /** The `i`th operation told the count of `v` under `key`, and `v` expires at most `limit` after it. */
  ghost predicate ToldAt(c: Settings, ops: seq<CacheOp>, i: nat, key: string, v: Timed, limit: int) {
    i < |ops| && Tells(c, ops[i], key) && ops[i].count == v.count && v.expireAt <= ops[i].write.l2 + limit
  }

  ghost predicate ToldWithin(c: Settings, ops: seq<CacheOp>, key: string, v: Timed, limit: int) {
    exists i: nat :: ToldAt(c, ops, i, key, v, limit)
  }

  lemma ToldExtends(c: Settings, ops: seq<CacheOp>, key: string, v: Timed, limit: int, limit': int)
    requires ops != [] && ToldWithin(c, ops[..|ops| - 1], key, v, limit) && limit <= limit'
    ensures ToldWithin(c, ops, key, v, limit')
  {
    var i: nat :| ToldAt(c, ops[..|ops| - 1], i, key, v, limit);
    assert ToldAt(c, ops, i, key, v, limit');
  }

  lemma ToldNow(c: Settings, ops: seq<CacheOp>, key: string, v: Timed, limit: int)
    requires ops != []
    requires var op := ops[|ops| - 1]; Tells(c, op, key) && op.count == v.count && v.expireAt <= op.write.l2 + limit
    ensures ToldWithin(c, ops, key, v, limit)
  {
    assert ToldAt(c, ops, |ops| - 1, key, v, limit);
  }

  /** A refill takes over an entry that is still good and starts its level-1 life `delay` later. */
  lemma RefillTold(c: Settings, ops: seq<CacheOp>, key: string, v: Timed, read: ReadTimes)
    requires ToldWithin(c, ops, key, v, c.l2Ttl) && read.l2 <= v.expireAt
    ensures ToldWithin(c, ops, key, Timed(v.count, read.refill + c.l1Ttl), c.l1Ttl + c.l2Ttl + (read.refill - read.l2))
  {
    var i: nat :| ToldAt(c, ops, i, key, v, c.l2Ttl);
    assert ToldAt(c, ops, i, key, Timed(v.count, read.refill + c.l1Ttl), c.l1Ttl + c.l2Ttl + (read.refill - read.l2));
  }

  lemma {:induction false} SharedTold(c: Settings, ops: seq<CacheOp>, key: string)
    requires 0 < c.capacity && key in PerformAll(c, ops).l2
    ensures ToldWithin(c, ops, key, PerformAll(c, ops).l2[key], c.l2Ttl)
  {
    if ops != [] {
      var last, v := ops[|ops| - 1], PerformAll(c, ops).l2[key];
      if Tells(c, last, key) && c.connected && last.ok {
        ToldNow(c, ops, key, v, c.l2Ttl);
      } else {
        SharedTold(c, ops[..|ops| - 1], key);
        ToldExtends(c, ops, key, v, c.l2Ttl, c.l2Ttl);
      }
    }
  }

  ghost predicate AllInOrder(ops: seq<CacheOp>) {
    forall i :: 0 <= i < |ops| ==> InOrder(ops[i])
  }

  lemma RefillEntry(c: Settings, s: Store, ask: CacheOp, e: Entry<Timed>)
    requires 0 < c.capacity && ask.Ask? && e in Perform(c, s, ask).0.l1 && e !in s.l1
    ensures Refills(c, s, ask)
  {
    var key := KeyOf(c, ask.request);
    LookUpEntry(c, s, key, ask.read, ask.ok, e);
    FindIffKey(s.l1, key);
    WithoutMembers(s.l1, key);
  }

  /** An entry of level 1 that the last operation, a look-up, put there. */
  lemma RefillEntryTold(c: Settings, ops: seq<CacheOp>, e: Entry<Timed>)
    requires 0 < c.capacity && ops != [] && ops[|ops| - 1].Ask? && AllInOrder(ops)
    requires e in PerformAll(c, ops).l1 && e !in PerformAll(c, ops[..|ops| - 1]).l1
    ensures ToldWithin(c, ops, e.key, e.value, c.l1Ttl + c.l2Ttl + LastDelay(c, ops))
  {
    var init, last := ops[..|ops| - 1], ops[|ops| - 1];
    var s, key := PerformAll(c, init), KeyOf(c, last.request);
    LookUpEntry(c, s, key, last.read, last.ok, e);
    RefillEntry(c, s, last, e);
    SharedTold(c, init, key);
    RefillTold(c, init, key, s.l2[key], last.read);
    ToldExtends(c, ops, key, e.value, c.l1Ttl + c.l2Ttl + Delay(last), c.l1Ttl + c.l2Ttl + LastDelay(c, ops));
  }

  /** An entry of level 1 that the last operation, a write, put there. */
  lemma WriteEntryTold(c: Settings, ops: seq<CacheOp>, e: Entry<Timed>)
    requires 0 < c.capacity && 0 <= c.l2Ttl && ops != [] && ops[|ops| - 1].Tell? && AllInOrder(ops)
    requires e in PerformAll(c, ops).l1 && e !in PerformAll(c, ops[..|ops| - 1]).l1
    ensures ToldWithin(c, ops, e.key, e.value, c.l1Ttl + c.l2Ttl)
  {
    var last := ops[|ops| - 1];
    SaveEntry(c, PerformAll(c, ops[..|ops| - 1]), KeyOf(c, last.request), last.count, last.write, last.ok, e);
    ToldNow(c, ops, e.key, e.value, c.l1Ttl + c.l2Ttl);
  }

  lemma ToldLonger(c: Settings, ops: seq<CacheOp>, key: string, v: Timed, limit: int, limit': int)
    requires ToldWithin(c, ops, key, v, limit) && limit <= limit'
    ensures ToldWithin(c, ops, key, v, limit')
  {
    var i: nat :| ToldAt(c, ops, i, key, v, limit);
    assert ToldAt(c, ops, i, key, v, limit');
  }

  lemma {:induction false} LagCovers(c: Settings, ops: seq<CacheOp>)
    requires 0 < c.capacity && ops != []
    ensures Lag(c, ops[..|ops| - 1]) <= Lag(c, ops) && LastDelay(c, ops) <= Lag(c, ops)
  {
  }

  /** The count of the entry was told early enough for both lifetimes and the longest delay. */
  ghost predicate ToldInTime(c: Settings, ops: seq<CacheOp>, e: Entry<Timed>)
    requires 0 < c.capacity
  {
    ToldWithin(c, ops, e.key, e.value, c.l1Ttl + c.l2Ttl + Lag(c, ops))
  }

  lemma OldEntryTold(c: Settings, ops: seq<CacheOp>, e: Entry<Timed>)
    requires 0 < c.capacity && ops != [] && ToldInTime(c, ops[..|ops| - 1], e)
    ensures ToldInTime(c, ops, e)
  {
    LagCovers(c, ops);
    ToldExtends(c, ops, e.key, e.value, c.l1Ttl + c.l2Ttl + Lag(c, ops[..|ops| - 1]), c.l1Ttl + c.l2Ttl + Lag(c, ops));
  }

  lemma NewEntryTold(c: Settings, ops: seq<CacheOp>, e: Entry<Timed>)
    requires 0 < c.capacity && 0 <= c.l2Ttl && ops != [] && AllInOrder(ops)
    requires e in PerformAll(c, ops).l1 && e !in PerformAll(c, ops[..|ops| - 1]).l1
    ensures ToldInTime(c, ops, e)
  {
    LagCovers(c, ops);
    var limit := c.l1Ttl + c.l2Ttl + Lag(c, ops);
    match ops[|ops| - 1]
    case Ask(_, _, _) =>
      RefillEntryTold(c, ops, e);
      ToldLonger(c, ops, e.key, e.value, c.l1Ttl + c.l2Ttl + LastDelay(c, ops), limit);
    case Tell(_, _, _, _) =>
      WriteEntryTold(c, ops, e);
      ToldLonger(c, ops, e.key, e.value, c.l1Ttl + c.l2Ttl, limit);
    case Drop(_, _) =>
  }

  lemma {:induction false} LocalTold(c: Settings, ops: seq<CacheOp>, e: Entry<Timed>)
    requires 0 < c.capacity && 0 <= c.l2Ttl && e in PerformAll(c, ops).l1 && AllInOrder(ops)
    ensures ToldInTime(c, ops, e)
  {
    if ops != [] {
      if e in PerformAll(c, ops[..|ops| - 1]).l1 {
        LocalTold(c, ops[..|ops| - 1], e);
        OldEntryTold(c, ops, e);
      } else {
        NewEntryTold(c, ops, e);
      }
    }
  }

  /** The reading of the clock that found the count. */
  function FoundAt(source: Source, at: ReadTimes): int {
    if source == LocalLru then at.l1 else at.l2
  }

  ghost predicate RecentlyTold(c: Settings, ops: seq<CacheOp>, i: nat, key: string, count: int, now: int, limit: int) {
    i < |ops| && Tells(c, ops[i], key) && ops[i].count == count && now - ops[i].write.l2 <= limit
  }

  /** The look-up behind this trace is a miss, or finds a count told no more than `limit` before. */
  ghost predicate HitWithin(c: Settings, ops: seq<CacheOp>, r: Request, at: ReadTimes, ok: bool, limit: int)
    requires 0 < c.capacity
  {
    var found := LookUp(c, PerformAll(c, ops), KeyOf(c, r), at, ok).1;
    found.Hit? ==>
      exists i: nat :: RecentlyTold(c, ops, i, KeyOf(c, r), found.count, FoundAt(found.source, at), limit)
  }

  lemma ToldIsRecent(c: Settings, ops: seq<CacheOp>, key: string, v: Timed, now: int, limit: int)
    returns (i: nat)
    requires ToldWithin(c, ops, key, v, limit) && now <= v.expireAt
    ensures RecentlyTold(c, ops, i, key, v.count, now, limit)
  {
    i :| ToldAt(c, ops, i, key, v, limit);
  }

  lemma LocalIsFresh(c: Settings, ops: seq<CacheOp>, key: string, v: Timed, now: int, limit: int) returns (i: nat)
    requires 0 < c.capacity && 0 <= c.l2Ttl && AllInOrder(ops) && limit == c.l1Ttl + c.l2Ttl + Lag(c, ops)
    requires Find(PerformAll(c, ops).l1, key) == Some(v) && now <= v.expireAt
    ensures RecentlyTold(c, ops, i, key, v.count, now, limit)
  {
    FindIsMember(PerformAll(c, ops).l1, key);
    LocalTold(c, ops, Entry(key, v));
    i := ToldIsRecent(c, ops, key, v, now, limit);
  }

  lemma SharedIsFresh(c: Settings, ops: seq<CacheOp>, key: string, v: Timed, now: int) returns (i: nat)
    requires 0 < c.capacity && Shared(PerformAll(c, ops), key) == Some(v) && now <= v.expireAt
    ensures RecentlyTold(c, ops, i, key, v.count, now, c.l2Ttl)
  {
    SharedTold(c, ops, key);
    i := ToldIsRecent(c, ops, key, v, now, c.l2Ttl);
  }

  lemma EntryIsFresh(c: Settings, ops: seq<CacheOp>, key: string, v: Timed, source: Source, at: ReadTimes)
    returns (i: nat)
    requires 0 < c.capacity && 0 <= c.l1Ttl && 0 <= c.l2Ttl && AllInOrder(ops)
    requires source == LocalLru ==> Find(PerformAll(c, ops).l1, key) == Some(v) && at.l1 <= v.expireAt
    requires source != LocalLru ==> Shared(PerformAll(c, ops), key) == Some(v) && at.l2 <= v.expireAt
    ensures RecentlyTold(c, ops, i, key, v.count, FoundAt(source, at), c.l1Ttl + c.l2Ttl + Lag(c, ops))
  {
    if source == LocalLru {
      i := LocalIsFresh(c, ops, key, v, at.l1, c.l1Ttl + c.l2Ttl + Lag(c, ops));
    } else {
      i := SharedIsFresh(c, ops, key, v, at.l2);
    }
  }

  /** Sequential use, whatever fails in level 2: a hit returns a count told under the same key no
      more than l1Ttl + l2Ttl earlier, plus the longest time that passed before a refill. */
  lemma {:induction false} HitIsFresh(c: Settings, ops: seq<CacheOp>, r: Request, at: ReadTimes, ok: bool)
    requires 0 < c.capacity && 0 <= c.l1Ttl && 0 <= c.l2Ttl && Sequential(ops)
    ensures HitWithin(c, ops, r, at, ok, c.l1Ttl + c.l2Ttl + Lag(c, ops))
  {
    var s, key, limit := PerformAll(c, ops), KeyOf(c, r), c.l1Ttl + c.l2Ttl + Lag(c, ops);
    var found := LookUp(c, s, key, at, ok).1;
    if found.Hit? {
      var v := HitEntry(c, s, key, at, ok);
      var i := EntryIsFresh(c, ops, key, v, found.source, at);
      assert RecentlyTold(c, ops, i, key, found.count, FoundAt(found.source, at), limit);
    }
  }

  /** All sequential runs whose refills take at most `delay` keep the bound without any delay. */
  ghost predicate BoundWithoutDelay(c: Settings, delay: nat)
    requires 0 < c.capacity
  {
    forall ops, r, at, ok :: Sequential(ops + [Ask(r, at, ok)]) && Lag(c, ops) <= delay ==>
      HitWithin(c, ops, r, at, ok, c.l1Ttl + c.l2Ttl)
  }

  /** A count told at 0, pushed out of level 1, and fetched from level 2 at the end of its life. */
  function LateRefill(c: Settings, r: Request, count: int, delay: nat): seq<CacheOp> {
    [Tell(r, count, WriteTimes(0, 0), true)] + Crowd(r, c.capacity, 0)
    + [Ask(r, ReadTimes(c.l2Ttl, c.l2Ttl, c.l2Ttl + delay), true)]
  }

  lemma {:induction false} LagOfCrowd(c: Settings, r: Request, n: nat, first: CacheOp)
    requires 0 < c.capacity && first.Tell?
    ensures Lag(c, [first] + Crowd(r, n, 0)) == 0
  {
    var ops := [first] + Crowd(r, n, 0);
    if n > 0 {
      assert ops[..|ops| - 1] == [first] + Crowd(r, n - 1, 0);
      LagOfCrowd(c, r, n - 1, first);
    } else {
      assert ops[..0] == [];
    }
  }

  function Front(c: Settings, r: Request, count: int): seq<CacheOp> {
    [Tell(r, count, WriteTimes(0, 0), true)] + Crowd(r, c.capacity, 0)
  }

  /** Once other keys have pushed the count out of level 1, level 2 alone has it. */
  lemma FrontLeaves(c: Settings, r: Request, count: int)
    requires 0 < c.capacity && c.connected && FixedLength(c.hash)
    ensures var s := PerformAll(c, Front(c, r, count));
            Find(s.l1, KeyOf(c, r)) == None && s.l2 == map[KeyOf(c, r) := Timed(count, c.l2Ttl)]
  {
    var tell := Tell(r, count, WriteTimes(0, 0), true);
    PerformSnoc(c, EMPTY, [], tell);
    assert [] + [tell] == [tell];
    PerformBounded(c, EMPTY, tell);
    PerformConcat(c, EMPTY, [tell], Crowd(r, c.capacity, 0));
    CrowdEvicts(c, PerformFrom(c, EMPTY, [tell]), r, 0);
  }

  function LateAsk(c: Settings, r: Request, delay: nat): CacheOp {
    Ask(r, ReadTimes(c.l2Ttl, c.l2Ttl, c.l2Ttl + delay), true)
  }

  /** The look-up refills level 1, `delay` late. */
  lemma LateRefillStores(c: Settings, r: Request, count: int, delay: nat)
    requires 0 < c.capacity && c.connected && FixedLength(c.hash)
    ensures var ops := LateRefill(c, r, count, delay);
            && ops[..|ops| - 1] == Front(c, r, count) && LastDelay(c, ops) == delay
            && Find(PerformAll(c, ops).l1, KeyOf(c, r)) == Some(Timed(count, c.l1Ttl + c.l2Ttl + delay))
  {
    var ops, front := LateRefill(c, r, count, delay), Front(c, r, count);
    FrontLeaves(c, r, count);
    assert ops == front + [LateAsk(c, r, delay)] && ops[..|ops| - 1] == front;
    PerformSnoc(c, EMPTY, front, LateAsk(c, r, delay));
  }

  lemma {:induction false} LagOfLateRefill(c: Settings, r: Request, count: int, delay: nat)
    requires 0 < c.capacity && c.connected && FixedLength(c.hash)
    ensures Lag(c, LateRefill(c, r, count, delay)) == delay
  {
    LateRefillStores(c, r, count, delay);
    LagOfCrowd(c, r, c.capacity, Tell(r, count, WriteTimes(0, 0), true));
  }

  lemma LateRefillIsSequential(c: Settings, r: Request, count: int, delay: nat, now: int)
    requires 0 <= c.l1Ttl && 0 <= c.l2Ttl && now == c.l1Ttl + c.l2Ttl + delay
    ensures Sequential(LateRefill(c, r, count, delay) + [Ask(r, ReadTimes(now, now, now), true)])
  {
    var front := Front(c, r, count);
    forall i | 0 <= i < |front| ensures front[i].Tell? && front[i].write == WriteTimes(0, 0) {}
  }

  lemma {:induction false} OnlyFirstTells(c: Settings, r: Request, count: int, delay: nat, i: nat)
    requires FixedLength(c.hash) && i < |LateRefill(c, r, count, delay)|
    ensures Tells(c, LateRefill(c, r, count, delay)[i], KeyOf(c, r)) ==> i == 0
  {
    var crowd := Crowd(r, c.capacity, 0);
    if 1 <= i <= c.capacity {
      assert LateRefill(c, r, count, delay)[i] == crowd[i - 1];
      assert OtherRequest(r, 0) == r;
      OtherKeysDiffer(c, r, i, 0);
    }
  }

  lemma LateRefillIsOlder(c: Settings, r: Request, count: int, delay: nat, now: int, limit: int)
    requires 0 < c.capacity && c.connected && FixedLength(c.hash) && 0 <= c.l1Ttl && 0 <= c.l2Ttl
    requires now == c.l1Ttl + c.l2Ttl + delay && limit < now
    ensures !HitWithin(c, LateRefill(c, r, count, delay), r, ReadTimes(now, now, now), true, limit)
  {
    var ops := LateRefill(c, r, count, delay);
    LateRefillStores(c, r, count, delay);
    assert LookUp(c, PerformAll(c, ops), KeyOf(c, r), ReadTimes(now, now, now), true).1 == Hit(count, LocalLru);
    forall i: nat ensures !RecentlyTold(c, ops, i, KeyOf(c, r), count, now, limit) {
      if i < |ops| { OnlyFirstTells(c, r, count, delay, i); }
    }
  }

  /** For every delay there is a sequential run whose last look-up finds a count exactly
      l1Ttl + l2Ttl and that delay old. */
  lemma LateRefillIsOld(c: Settings, r: Request, count: int, delay: nat)
    requires 0 < c.capacity && c.connected && FixedLength(c.hash) && 0 <= c.l1Ttl && 0 <= c.l2Ttl
    ensures var ops, at := LateRefill(c, r, count, delay), c.l1Ttl + c.l2Ttl + delay;
            forall limit :: HitWithin(c, ops, r, ReadTimes(at, at, at), true, limit) ==> at <= limit
  {
    var ops, at := LateRefill(c, r, count, delay), c.l1Ttl + c.l2Ttl + delay;
    forall limit ensures HitWithin(c, ops, r, ReadTimes(at, at, at), true, limit) ==> at <= limit {
      if limit < at { LateRefillIsOlder(c, r, count, delay, at, limit); }
    }
  }

  lemma BoundHoldsAtOnce(c: Settings)
    requires 0 < c.capacity && 0 <= c.l1Ttl && 0 <= c.l2Ttl
    ensures BoundWithoutDelay(c, 0)
  {
    forall ops, r, at, ok | Sequential(ops + [Ask(r, at, ok)]) && Lag(c, ops) <= 0
      ensures HitWithin(c, ops, r, at, ok, c.l1Ttl + c.l2Ttl)
    {
      var all := ops + [Ask(r, at, ok)];
      assert Sequential(ops) by {
        assert forall i :: 0 <= i < |ops| ==> all[i] == ops[i];
      }
      HitIsFresh(c, ops, r, at, ok);
    }
  }

  /** A sequential run whose refills take at most `delay` and whose last look-up breaks the bound. */
  ghost predicate Breaks(c: Settings, delay: nat, ops: seq<CacheOp>, r: Request, at: ReadTimes)
    requires 0 < c.capacity
  {
    && Sequential(ops + [Ask(r, at, true)]) && Lag(c, ops) <= delay
    && !HitWithin(c, ops, r, at, true, c.l1Ttl + c.l2Ttl)
  }

  lemma BoundRefuted(c: Settings, delay: nat, ops: seq<CacheOp>, r: Request, at: ReadTimes)
    requires 0 < c.capacity && Breaks(c, delay, ops, r, at)
    ensures !BoundWithoutDelay(c, delay)
  {
  }

  lemma LateRefillBreaks(c: Settings, delay: nat, r: Request, now: int)
    requires 0 < delay && 0 < c.capacity && c.connected && FixedLength(c.hash) && 0 <= c.l1Ttl && 0 <= c.l2Ttl
    requires now == c.l1Ttl + c.l2Ttl + delay
    ensures Breaks(c, delay, LateRefill(c, r, 0, delay), r, ReadTimes(now, now, now))
  {
    LateRefillIsSequential(c, r, 0, delay, now);
    LagOfLateRefill(c, r, 0, delay);
    LateRefillIsOlder(c, r, 0, delay, now, c.l1Ttl + c.l2Ttl);
  }

  lemma BoundFailsWithDelay(c: Settings, delay: nat)
    requires 0 < delay && 0 < c.capacity && c.connected && FixedLength(c.hash) && 0 <= c.l1Ttl && 0 <= c.l2Ttl
    ensures !BoundWithoutDelay(c, delay)
  {
    var r, now := Request("", ""), c.l1Ttl + c.l2Ttl + delay;
    LateRefillBreaks(c, delay, r, now);
    BoundRefuted(c, delay, LateRefill(c, r, 0, delay), r, ReadTimes(now, now, now));
  }

  /** The two lifetimes alone bound the age of every hit of every sequential run exactly if refills
      take no time. */
  lemma BoundWithoutDelayIff(c: Settings, delay: nat)
    requires 0 < c.capacity && c.connected && FixedLength(c.hash) && 0 <= c.l1Ttl && 0 <= c.l2Ttl
    ensures BoundWithoutDelay(c, delay) <==> delay == 0
  {
    if delay == 0 {
      BoundHoldsAtOnce(c);
    } else {
      BoundFailsWithDelay(c, delay);
    }
  }
}
