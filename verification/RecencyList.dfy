/** The recency list both LRU caches implement: entries in most-recent-first order.

    The embeddings cache (no expiry) and the token cache (expiry) are the two
    instances of the same step function; they differ only in when a stored value
    counts as stale.
 */
module RecencyList {
  import opened Wrappers

  datatype Entry<+V> = Entry(key: string, value: V)

  type Recency<V> = seq<Entry<V>>

  /** One call on a cache. `now` is the clock the call reads. */
  datatype Op<V> = Get(key: string, now: int) | Set(key: string, value: V)

  /** No key occurs twice. */
  ghost predicate Distinct<V>(s: Recency<V>) {
    forall i, j :: 0 <= i < j < |s| ==> s[i].key != s[j].key
  }

  ghost function Keys<V>(s: Recency<V>): set<string> {
    set e | e in s :: e.key
  }

  function Find<V>(s: Recency<V>, key: string): Option<V> {
    if s == [] then None
    else if s[0].key == key then Some(s[0].value)
    else Find(s[1..], key)
  }

  function Without<V>(s: Recency<V>, key: string): Recency<V> {
    if s == [] then []
    else if s[0].key == key then Without(s[1..], key)
    else [s[0]] + Without(s[1..], key)
  }

  /** Promotes `key`, which now carries `value`, to the front. */
  function Promote<V>(s: Recency<V>, key: string, value: V): Recency<V> {
    [Entry(key, value)] + Without(s, key)
  }

  /** Updates in place, or inserts after evicting the last entry of a full list. */
  function Put<V>(s: Recency<V>, capacity: nat, key: string, value: V): Recency<V>
    requires 0 < capacity
  {
    if Find(s, key).Some? then Promote(s, key, value)
    else [Entry(key, value)] + if |s| >= capacity then s[..|s| - 1] else s
  }

  /** A hit promotes, a stale entry is dropped and reported as a miss. */
  function Step<V>(s: Recency<V>, capacity: nat, op: Op<V>, stale: (V, int) -> bool): (Recency<V>, Option<V>)
    requires 0 < capacity
  {
    match op
    case Set(k, v) => (Put(s, capacity, k, v), None)
    case Get(k, now) =>
      match Find(s, k)
      case None => (s, None)
      case Some(v) =>
        if stale(v, now) then (Without(s, k), None) else (Promote(s, k, v), Some(v))
  }

  /** State and answers after a whole trace, starting from an empty cache. */
  function Run<V>(capacity: nat, ops: seq<Op<V>>, stale: (V, int) -> bool): (r: (Recency<V>, seq<Option<V>>))
    requires 0 < capacity
    ensures |r.1| == |ops|
  {
    if ops == [] then ([], [])
    else
      var before := Run(capacity, ops[..|ops| - 1], stale);
      var after := Step(before.0, capacity, ops[|ops| - 1], stale);
      (after.0, before.1 + [after.1])
  }

  // ---------- basic facts ----------

  lemma {:induction false} FindIffKey<V>(s: Recency<V>, key: string)
    ensures Find(s, key).Some? <==> key in Keys(s)
    ensures Find(s, key).Some? ==> Entry(key, Find(s, key).value) in s
  {
    if s != [] {
      assert s == [s[0]] + s[1..];
      FindIffKey(s[1..], key);
      if Find(s[1..], key).Some? && s[0].key != key {
        assert Entry(key, Find(s[1..], key).value) in s[1..];
      }
      if key in Keys(s) && s[0].key != key {
        var e :| e in s && e.key == key;
        assert e in s[1..];
      }
    }
  }

  lemma {:induction false} FindAt<V>(s: Recency<V>, i: nat)
    requires Distinct(s) && i < |s|
    ensures Find(s, s[i].key) == Some(s[i].value)
  {
    if i > 0 {
      FindAt(s[1..], i - 1);
      assert s[1..][i - 1] == s[i];
      assert s[0].key != s[i].key;
    }
  }

  lemma {:induction false} WithoutMembers<V>(s: Recency<V>, key: string)
    ensures forall e :: e in Without(s, key) <==> e in s && e.key != key
    ensures forall i :: 0 <= i < |Without(s, key)| ==> Without(s, key)[i] in s && Without(s, key)[i].key != key
  {
    if s != [] {
      assert s == [s[0]] + s[1..];
      WithoutMembers(s[1..], key);
    }
  }

  lemma {:induction false} WithoutDistinct<V>(s: Recency<V>, key: string)
    requires Distinct(s)
    ensures Distinct(Without(s, key))
  {
    if s != [] {
      WithoutDistinct(s[1..], key);
      var rest := Without(s[1..], key);
      WithoutMembers(s[1..], key);
      forall i | 0 <= i < |rest| ensures rest[i].key != s[0].key {
        var j :| 0 <= j < |s[1..]| && s[1..][j] == rest[i];
        assert s[j + 1] == rest[i];
      }
    }
  }

  lemma {:induction false} WithoutAbsent<V>(s: Recency<V>, key: string)
    requires key !in Keys(s)
    ensures Without(s, key) == s
  {
    if s != [] {
      assert s[0] in s;
      assert forall e :: e in s[1..] ==> e in s;
      WithoutAbsent(s[1..], key);
    }
  }

  lemma {:induction false} WithoutAt<V>(s: Recency<V>, i: nat)
    requires Distinct(s) && i < |s|
    ensures Without(s, s[i].key) == s[..i] + s[i + 1..]
  {
    var rest := s[1..];
    if i == 0 {
      forall j | 0 <= j < |rest| ensures rest[j].key != s[0].key { assert rest[j] == s[j + 1]; }
      WithoutAbsent(rest, s[0].key);
    } else {
      assert rest[i - 1] == s[i];
      WithoutAt(rest, i - 1);
      assert s[0].key != s[i].key;
      assert s[..i] + s[i + 1..] == [s[0]] + (rest[..i - 1] + rest[i..]);
    }
  }

  /** `e` is in front of `after`, which else is `before` without `e`, in its order. */
  ghost predicate MovedUp<V>(before: Recency<V>, after: Recency<V>, e: Entry<V>) {
    exists i :: 0 <= i < |before| && before[i] == e && after == [e] + (before[..i] + before[i + 1..])
  }

  lemma PromoteMovesUp<V>(s: Recency<V>, i: nat)
    requires Distinct(s) && i < |s|
    ensures MovedUp(s, Promote(s, s[i].key, s[i].value), s[i])
  {
    WithoutAt(s, i);
  }

  lemma {:induction false} WithoutLength<V>(s: Recency<V>, key: string)
    requires Distinct(s)
    ensures |Without(s, key)| == if Find(s, key).Some? then |s| - 1 else |s|
  {
    FindIffKey(s, key);
    if Find(s, key).Some? {
      var i :| 0 <= i < |s| && s[i] == Entry(key, Find(s, key).value);
      WithoutAt(s, i);
    } else {
      WithoutAbsent(s, key);
    }
  }

  /** Every step keeps the list duplicate free and within its capacity. */
  lemma {:induction false} StepInvariant<V>(s: Recency<V>, capacity: nat, op: Op<V>, stale: (V, int) -> bool)
    requires 0 < capacity && Distinct(s) && |s| <= capacity
    ensures Distinct(Step(s, capacity, op, stale).0)
    ensures |Step(s, capacity, op, stale).0| <= capacity
  {
    WithoutDistinct(s, op.key);
    WithoutLength(s, op.key);
    WithoutMembers(s, op.key);
    FindIffKey(s, op.key);
    forall i | 0 <= i < |s| && Find(s, op.key).None? ensures s[i].key != op.key { assert s[i] in s; }
  }

  lemma {:induction false} RunInvariant<V>(capacity: nat, ops: seq<Op<V>>, stale: (V, int) -> bool)
    requires 0 < capacity
    ensures Distinct(Run(capacity, ops, stale).0)
    ensures |Run(capacity, ops, stale).0| <= capacity
  {
    if ops != [] {
      RunInvariant(capacity, ops[..|ops| - 1], stale);
      StepInvariant(Run(capacity, ops[..|ops| - 1], stale).0, capacity, ops[|ops| - 1], stale);
    }
  }

  // ---------- capacity inclusion ----------

  /** `a` can be obtained from `b` by deleting entries. */
  ghost predicate Sub<V>(a: Recency<V>, b: Recency<V>) {
    if a == [] then true
    else if b == [] then false
    else if a[0] == b[0] then Sub(a[1..], b[1..])
    else Sub(a, b[1..])
  }

  lemma {:induction false} SubMembers<V>(a: Recency<V>, b: Recency<V>)
    requires Sub(a, b)
    ensures forall e :: e in a ==> e in b
    ensures |a| <= |b|
  {
    if a != [] {
      assert a == [a[0]] + a[1..] && b == [b[0]] + b[1..];
      if a[0] == b[0] { SubMembers(a[1..], b[1..]); } else { SubMembers(a, b[1..]); }
    }
  }

  lemma {:induction false} SubTail<V>(a: Recency<V>, b: Recency<V>)
    requires Sub(a, b) && a != []
    ensures Sub(a[1..], b)
    decreases |a| + |b|
  {
    if a[0] == b[0] {
      SubSkip(a[1..], b);
    } else {
      SubTail(a, b[1..]);
      SubSkip(a[1..], b);
    }
  }

  lemma {:induction false} SubSkip<V>(a: Recency<V>, b: Recency<V>)
    requires b != [] && Sub(a, b[1..])
    ensures Sub(a, b)
    decreases |a| + |b|
  {
    if a != [] && a[0] == b[0] { SubTail(a, b[1..]); }
  }

  lemma {:induction false} SubWithout<V>(a: Recency<V>, b: Recency<V>, key: string)
    requires Sub(a, b)
    ensures Sub(Without(a, key), Without(b, key))
  {
    if a != [] {
      if a[0] == b[0] {
        SubWithout(a[1..], b[1..], key);
      } else {
        SubWithout(a, b[1..], key);
        if b[0].key != key {
          var wb := Without(b, key);
          assert wb[1..] == Without(b[1..], key);
          SubSkip(Without(a, key), wb);
        }
      }
    }
  }

  /** An entry that only `b` holds at its end can be dropped from `b`. */
  lemma {:induction false} SubDropForeignLast<V>(a: Recency<V>, b: Recency<V>)
    requires Sub(a, b) && b != [] && b[|b| - 1] !in a
    ensures Sub(a, b[..|b| - 1])
  {
    if a != [] && |b| > 1 {
      var rest := b[1..];
      assert rest[|rest| - 1] == b[|b| - 1];
      assert b[..|b| - 1] == [b[0]] + rest[..|rest| - 1];
      if a[0] == b[0] {
        assert a == [a[0]] + a[1..];
        SubDropForeignLast(a[1..], rest);
      } else {
        SubDropForeignLast(a, rest);
      }
      assert b[..|b| - 1][1..] == rest[..|rest| - 1];
    }
  }

  /** An entry both hold at their ends can be dropped from both. */
  lemma {:induction false} SubDropSharedLast<V>(a: Recency<V>, b: Recency<V>)
    requires Sub(a, b) && a != [] && b != [] && a[|a| - 1] == b[|b| - 1]
    ensures Sub(a[..|a| - 1], b[..|b| - 1])
  {
    if |a| > 1 {
      SubMembers(a, b);
      var rest := b[1..];
      assert rest[|rest| - 1] == b[|b| - 1];
      assert b[..|b| - 1][1..] == rest[..|rest| - 1];
      if a[0] == b[0] {
        assert a[1..][|a| - 2] == a[|a| - 1];
        SubDropSharedLast(a[1..], rest);
        assert a[..|a| - 1][1..] == a[1..][..|a| - 2];
      } else {
        SubDropSharedLast(a, rest);
        SubSkip(a[..|a| - 1], b[..|b| - 1]);
      }
    }
  }

  /** What holds between the two recency lists of the same trace on capacities n <= m. */
  ghost predicate Included<V>(small: Recency<V>, n: nat, large: Recency<V>, m: nat) {
    && Distinct(small) && Distinct(large)
    && |small| <= n && |large| <= m
    && Sub(small, large)
    && |large| - |small| <= m - n
  }

  lemma {:induction false} FindInSub<V>(a: Recency<V>, b: Recency<V>, key: string)
    requires Sub(a, b) && Distinct(b) && Find(a, key).Some?
    ensures Find(b, key) == Find(a, key)
  {
    FindIffKey(a, key);
    SubMembers(a, b);
    var i :| 0 <= i < |b| && b[i] == Entry(key, Find(a, key).value);
    FindAt(b, i);
  }

  lemma {:induction false} SubAnyDropLast<V>(a: Recency<V>, b: Recency<V>)
    requires Sub(a, b) && a != []
    ensures Sub(a[..|a| - 1], b)
  {
    if |a| > 1 {
      if a[0] == b[0] {
        SubAnyDropLast(a[1..], b[1..]);
        assert a[..|a| - 1][1..] == a[1..][..|a| - 2];
      } else {
        SubAnyDropLast(a, b[1..]);
        SubSkip(a[..|a| - 1], b);
      }
    }
  }

  /** If both hold the last entry of `b`, it is the last entry of `a` too. */
  lemma {:induction false} SubSharesLast<V>(a: Recency<V>, b: Recency<V>)
    requires Sub(a, b) && Distinct(b) && b != [] && b[|b| - 1] in a
    ensures a[|a| - 1] == b[|b| - 1]
  {
    assert a == [a[0]] + a[1..];
    if a[0] == b[0] {
      SubMembers(a[1..], b[1..]);
      if b[|b| - 1] in a[1..] { SubSharesLast(a[1..], b[1..]); }
    } else {
      SubMembers(a, b[1..]);
      SubSharesLast(a, b[1..]);
    }
  }

  lemma {:induction false} IncludedInsert<V>(small: Recency<V>, n: nat, large: Recency<V>, m: nat,
                                            key: string, value: V)
    requires 0 < n <= m && Included(small, n, large, m)
    requires Find(small, key).None?
    ensures Sub(Put(small, n, key, value), Put(large, m, key, value))
  {
    FindIffKey(small, key);
    FindIffKey(large, key);
    var s' := if |small| >= n then small[..|small| - 1] else small;
    if Find(large, key).Some? {
      WithoutAbsent(small, key);
      SubWithout(small, large, key);
      if |small| >= n { SubAnyDropLast(small, Without(large, key)); }
    } else if |large| >= m {
      // a full large cache forces the small one to be full, so a shared last entry leaves both
      if large[|large| - 1] in small {
        SubSharesLast(small, large);
        SubDropSharedLast(small, large);
      } else {
        SubDropForeignLast(small, large);
        if |small| >= n { SubAnyDropLast(small, large[..|large| - 1]); }
      }
    } else if |small| >= n {
      SubAnyDropLast(small, large);
    }
    var big := Put(large, m, key, value);
    assert Put(small, n, key, value)[1..] == s';
    assert big[1..] == if Find(large, key).Some? then Without(large, key)
                       else if |large| >= m then large[..|large| - 1] else large;
    assert Sub(s', big[1..]);
  }

  lemma {:induction false} IncludedStep<V>(small: Recency<V>, n: nat, large: Recency<V>, m: nat,
                                          op: Op<V>, stale: (V, int) -> bool)
    requires 0 < n <= m && Included(small, n, large, m)
    ensures Included(Step(small, n, op, stale).0, n, Step(large, m, op, stale).0, m)
    ensures Step(small, n, op, stale).1.Some? ==> Step(large, m, op, stale).1 == Step(small, n, op, stale).1
  {
    var k := op.key;
    StepInvariant(small, n, op, stale);
    StepInvariant(large, m, op, stale);
    WithoutLength(small, k);
    WithoutLength(large, k);
    SubWithout(small, large, k);
    var small' := Step(small, n, op, stale).0;
    var large' := Step(large, m, op, stale).0;
    if Find(small, k).Some? {
      FindInSub(small, large, k);
      assert Promote(small, k, Find(small, k).value)[1..] == Without(small, k);
      assert Promote(large, k, Find(small, k).value)[1..] == Without(large, k);
      if op.Set? {
        assert small'[1..] == Without(small, k) && large'[1..] == Without(large, k);
      }
    } else {
      FindIffKey(small, k);
      WithoutAbsent(small, k);
      if op.Set? {
        IncludedInsert(small, n, large, m, k, op.value);
      } else if Find(large, k).Some? {
        assert Promote(large, k, Find(large, k).value)[1..] == Without(large, k);
        SubSkip(small, Promote(large, k, Find(large, k).value));
      }
    }
  }

  /** Enlarging a cache never loses a hit: over every trace, the small recency list is a
      subsequence of the large one, they differ by at most the extra capacity, and every
      hit of the small cache is a hit of the large one with the same value. */
  lemma {:induction false} CapacityInclusion<V>(n: nat, m: nat, ops: seq<Op<V>>, stale: (V, int) -> bool)
    requires 0 < n <= m
    ensures Included(Run(n, ops, stale).0, n, Run(m, ops, stale).0, m)
    ensures forall i :: 0 <= i < |ops| && Run(n, ops, stale).1[i].Some? ==>
              Run(m, ops, stale).1[i] == Run(n, ops, stale).1[i]
  {
    if ops != [] {
      var init := ops[..|ops| - 1];
      CapacityInclusion(n, m, init, stale);
      IncludedStep(Run(n, init, stale).0, n, Run(m, init, stale).0, m, ops[|ops| - 1], stale);
    }
  }

  // ---------- what a hit returns, and when a hit is guaranteed ----------

  /** The value of the most recent Set of `key`, if there was one. */
  function LastSet<V>(ops: seq<Op<V>>, key: string): Option<V> {
    if ops == [] then None
    else
      var last := ops[|ops| - 1];
      if last.Set? && last.key == key then Some(last.value) else LastSet(ops[..|ops| - 1], key)
  }

  lemma {:induction false} StepFind<V>(s: Recency<V>, capacity: nat, op: Op<V>, stale: (V, int) -> bool, key: string)
    requires 0 < capacity && Distinct(s) && |s| <= capacity
    ensures var r := Find(Step(s, capacity, op, stale).0, key);
            r.Some? ==> r == if op.Set? && op.key == key then Some(op.value) else Find(s, key)
  {
    var s' := Step(s, capacity, op, stale).0;
    StepInvariant(s, capacity, op, stale);
    FindIffKey(s', key);
    if Find(s', key).Some? && !(op.Set? && op.key == key) {
      var e := Entry(key, Find(s', key).value);
      WithoutMembers(s, op.key);
      FindIffKey(s, op.key);
      assert e in s;
      var i :| 0 <= i < |s| && s[i] == e;
      FindAt(s, i);
    }
  }

  /** A hit always returns what the most recent Set of that key stored. */
  lemma {:induction false} HitReturnsLastSet<V>(capacity: nat, ops: seq<Op<V>>, stale: (V, int) -> bool, key: string)
    requires 0 < capacity
    ensures var r := Find(Run(capacity, ops, stale).0, key); r.Some? ==> r == LastSet(ops, key)
  {
    if ops != [] {
      var init := ops[..|ops| - 1];
      HitReturnsLastSet(capacity, init, stale, key);
      RunInvariant(capacity, init, stale);
      StepFind(Run(capacity, init, stale).0, capacity, ops[|ops| - 1], stale, key);
    }
  }

  ghost function OpKeys<V>(ops: seq<Op<V>>): set<string> {
    set op | op in ops :: op.key
  }

  /** `key` is at some position and everything in front of it has a key in `ahead`. */
  ghost predicate Behind<V>(s: Recency<V>, key: string, value: V, ahead: set<string>) {
    exists i :: 0 <= i < |s| && s[i] == Entry(key, value) && forall j :: 0 <= j < i ==> s[j].key in ahead
  }

  lemma {:induction false} DistinctPrefixSize<V>(s: Recency<V>, i: nat, ahead: set<string>)
    requires Distinct(s) && i <= |s|
    requires forall j :: 0 <= j < i ==> s[j].key in ahead
    ensures i <= |ahead|
    decreases i
  {
    if i > 0 {
      DistinctPrefixSize(s, i - 1, ahead - {s[i - 1].key});
    }
  }

  lemma {:induction false} BehindMove<V>(s: Recency<V>, p: nat, i: nat, key: string, value: V, ahead: set<string>)
    requires Distinct(s) && p < |s| && i < |s| && s[i] == Entry(key, value) && s[p].key != key
    requires forall j :: 0 <= j < i ==> s[j].key in ahead
    ensures Behind(Without(s, s[p].key), key, value, ahead)
  {
    WithoutAt(s, p);
    var rest := s[..p] + s[p + 1..];
    var i' := if p < i then i - 1 else i;
    assert rest[i'] == s[i];
    forall j | 0 <= j < i' ensures rest[j].key in ahead {
      assert rest[j] == if j < p then s[j] else s[j + 1];
    }
  }

  lemma {:induction false} BehindPush<V>(s: Recency<V>, e: Entry<V>, key: string, value: V, ahead: set<string>)
    requires Behind(s, key, value, ahead) && e.key in ahead
    ensures Behind([e] + s, key, value, ahead)
  {
    var i :| 0 <= i < |s| && s[i] == Entry(key, value) && forall j :: 0 <= j < i ==> s[j].key in ahead;
    assert ([e] + s)[i + 1] == s[i];
  }

  lemma {:induction false} BehindStep<V>(s: Recency<V>, capacity: nat, op: Op<V>, stale: (V, int) -> bool,
                      key: string, value: V, ahead: set<string>)
    requires 0 < capacity && Distinct(s) && |s| <= capacity
    requires op.key != key && op.key in ahead && |ahead| < capacity
    requires Behind(s, key, value, ahead)
    ensures Behind(Step(s, capacity, op, stale).0, key, value, ahead)
  {
    var i :| 0 <= i < |s| && s[i] == Entry(key, value) && forall j :: 0 <= j < i ==> s[j].key in ahead;
    FindIffKey(s, op.key);
    if Find(s, op.key).Some? {
      var p :| 0 <= p < |s| && s[p] == Entry(op.key, Find(s, op.key).value);
      BehindMove(s, p, i, key, value, ahead);
      BehindPush(Without(s, op.key), s[p], key, value, ahead);
      if op.Set? { BehindPush(Without(s, op.key), Entry(op.key, op.value), key, value, ahead); }
    } else if op.Set? {
      // eviction takes the last entry; fewer than `capacity` keys are ahead, so it is not `key`
      forall j | 0 <= j < i ensures s[j].key in ahead - {op.key} { assert s[j] in s; }
      DistinctPrefixSize(s, i, ahead - {op.key});
      var kept := if |s| >= capacity then s[..|s| - 1] else s;
      assert kept[i] == s[i];
      BehindPush(kept, Entry(op.key, op.value), key, value, ahead);
    }
  }

  lemma {:induction false} BehindWiden<V>(s: Recency<V>, key: string, value: V, ahead: set<string>, wider: set<string>)
    requires Behind(s, key, value, ahead) && ahead <= wider
    ensures Behind(s, key, value, wider)
  {
    var i :| 0 <= i < |s| && s[i] == Entry(key, value) && forall j :: 0 <= j < i ==> s[j].key in ahead;
    assert forall j :: 0 <= j < i ==> s[j].key in wider;
  }

  lemma {:induction false} KeysGrow(a: set<string>, b: set<string>)
    requires a <= b
    ensures |a| <= |b|
  {
    assert b == a + (b - a);
  }

  lemma InitKeys<V>(ops: seq<Op<V>>)
    requires ops != []
    ensures ops[|ops| - 1].key in OpKeys(ops)
    ensures OpKeys(ops[..|ops| - 1]) <= OpKeys(ops) && |OpKeys(ops[..|ops| - 1])| <= |OpKeys(ops)|
  {
    var init := ops[..|ops| - 1];
    assert ops[|ops| - 1] in ops && forall op :: op in init ==> op in ops;
    KeysGrow(OpKeys(init), OpKeys(ops));
  }

  lemma {:induction false} RunBehindSet<V>(capacity: nat, before: seq<Op<V>>, key: string, value: V,
      stale: (V, int) -> bool)
    requires 0 < capacity
    ensures Behind(Run(capacity, before + [Set(key, value)], stale).0, key, value, {})
  {
    var ops := before + [Set(key, value)];
    assert ops[..|ops| - 1] == before;
    assert Run(capacity, ops, stale).0[0] == Entry(key, value);
  }

  lemma {:induction false} RunBehindStep<V>(capacity: nat, ops: seq<Op<V>>, last: Op<V>, stale: (V, int) -> bool,
                         key: string, value: V, ahead: set<string>, wider: set<string>)
    requires 0 < capacity && Behind(Run(capacity, ops, stale).0, key, value, ahead) && ahead <= wider
    requires last.key != key && last.key in wider && |wider| < capacity
    ensures Behind(Run(capacity, ops + [last], stale).0, key, value, wider)
  {
    assert (ops + [last])[..|ops|] == ops;
    RunInvariant(capacity, ops, stale);
    var s := Run(capacity, ops, stale).0;
    BehindWiden(s, key, value, ahead, wider);
    BehindStep(s, capacity, last, stale, key, value, wider);
  }

  lemma {:induction false} RunBehind<V>(capacity: nat, before: seq<Op<V>>, key: string, value: V, after: seq<Op<V>>,
                                        stale: (V, int) -> bool)
    requires 0 < capacity
    requires key !in OpKeys(after) && |OpKeys(after)| < capacity
    ensures Behind(Run(capacity, before + [Set(key, value)] + after, stale).0, key, value, OpKeys(after))
    decreases |after|
  {
    var front := before + [Set(key, value)];
    if after == [] {
      assert front + after == front;
      RunBehindSet(capacity, before, key, value, stale);
    } else {
      var init, last := after[..|after| - 1], after[|after| - 1];
      assert front + after == (front + init) + [last];
      InitKeys(after);
      RunBehind(capacity, before, key, value, init, stale);
      RunBehindStep(capacity, front + init, last, stale, key, value, OpKeys(init), OpKeys(after));
    }
  }

  /** The least-recently-used guarantee: an entry survives any later trace that mentions
      fewer than `capacity` distinct other keys, whatever that trace does. */
  lemma {:induction false} RetentionGuarantee<V>(capacity: nat, before: seq<Op<V>>, key: string, value: V,
                                                after: seq<Op<V>>,
                              stale: (V, int) -> bool, now: int)
    requires 0 < capacity
    requires key !in OpKeys(after) && |OpKeys(after)| < capacity
    requires !stale(value, now)
    ensures var ops := before + [Set(key, value)] + after + [Get(key, now)];
            Run(capacity, ops, stale).1[|ops| - 1] == Some(value)
  {
    var s := before + [Set(key, value)] + after;
    RunBehind(capacity, before, key, value, after, stale);
    RunInvariant(capacity, s, stale);
    var list := Run(capacity, s, stale).0;
    var i :| 0 <= i < |list| && list[i] == Entry(key, value);
    FindAt(list, i);
    assert (s + [Get(key, now)])[..|s|] == s;
  }
}
