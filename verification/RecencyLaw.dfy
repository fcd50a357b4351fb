/** The law of least recent use, stated over calls and their answers alone: which calls on a cache
    hit is fixed by what the calls before them wrote and hit.
 */
module RecencyLaw {
  import opened RecencyList
  import opened Sequences
  import opened Wrappers

  datatype Call<V> = Call(op: Op<V>, answer: Option<V>)

  /** The calls of a trace with the answers they got. */
  function Calls<V>(capacity: nat, ops: seq<Op<V>>, stale: (V, int) -> bool): (h: seq<Call<V>>)
    requires 0 < capacity
    ensures |h| == |ops|
  {
    var answers := Run(capacity, ops, stale).1;
    seq(|ops|, i requires 0 <= i < |ops| => Call(ops[i], answers[i]))
  }

  /** A call uses its key if it writes or hits it. */
  predicate Uses<V>(c: Call<V>) {
    c.op.Set? || c.answer.Some?
  }

  /** The last call on `key` was at position `u`, and used it. */
  ghost predicate LastUsed<V>(h: seq<Call<V>>, u: nat, key: string) {
    u < |h| && h[u].op.key == key && Uses(h[u]) && forall i :: u < i < |h| ==> h[i].op.key != key
  }

  /** The keys used after position `u`, and by the last call on them. */
  ghost function UsedSince<V>(h: seq<Call<V>>, u: nat): set<string> {
    set i | u < i < |h| && LastUsed(h, i, h[i].op.key) :: h[i].op.key
  }

  /** `key` was last used at `u`, and at no time since then had as many other keys as there are places
      been used more recently. */
  ghost predicate Retained<V>(h: seq<Call<V>>, u: nat, key: string, capacity: nat) {
    LastUsed(h, u, key) && forall t :: u < t <= |h| ==> |UsedSince(h[..t], u)| < capacity
  }

  // ---------- keys by last use ----------

  /** The keys whose last call used them, most recent first. */
  function Order<V>(h: seq<Call<V>>): seq<string> {
    if h == [] then []
    else
      var c := h[|h| - 1];
      (if Uses(c) then [c.op.key] else []) + Dropped(Order(h[..|h| - 1]), c.op.key)
  }

  /** Position of the last call on `key`, or -1. */
  function LastCall<V>(h: seq<Call<V>>, key: string): (u: int)
    ensures -1 <= u < |h|
    ensures u >= 0 ==> h[u].op.key == key
    ensures forall i :: u < i < |h| ==> h[i].op.key != key
  {
    if h == [] then -1
    else if h[|h| - 1].op.key == key then |h| - 1
    else LastCall(h[..|h| - 1], key)
  }

  lemma {:induction false} OrderMembers<V>(h: seq<Call<V>>, key: string)
    ensures key in Order(h) <==> LastCall(h, key) >= 0 && Uses(h[LastCall(h, key)])
  {
    if h != [] {
      var init, c := h[..|h| - 1], h[|h| - 1];
      OrderMembers(init, key);
      DroppedMembers(Order(init), c.op.key);
    }
  }

  /** Without repetition, and by falling position of the last call. */
  ghost predicate Falling<V>(h: seq<Call<V>>, order: seq<string>) {
    forall i, j :: 0 <= i < j < |order| ==> LastCall(h, order[j]) < LastCall(h, order[i])
  }

  lemma {:induction false} DroppedFalls<V>(h: seq<Call<V>>, order: seq<string>, key: string)
    requires Falling(h, order)
    ensures Falling(h, Dropped(order, key))
  {
    if order != [] {
      assert order == [order[0]] + order[1..];
      DroppedFalls(h, order[1..], key);
      DroppedMembers(order[1..], key);
      forall j | 0 <= j < |Dropped(order[1..], key)|
        ensures LastCall(h, Dropped(order[1..], key)[j]) < LastCall(h, order[0])
      {
        assert Dropped(order[1..], key)[j] in order[1..];
        var i :| 0 <= i < |order[1..]| && order[1..][i] == Dropped(order[1..], key)[j];
        assert order[i + 1] == order[1..][i];
      }
    }
  }

  lemma {:induction false} OrderFalls<V>(h: seq<Call<V>>)
    ensures Falling(h, Order(h))
  {
    if h != [] {
      var init, c := h[..|h| - 1], h[|h| - 1];
      var rest := Dropped(Order(init), c.op.key);
      OrderFalls(init);
      DroppedFalls(init, Order(init), c.op.key);
      DroppedMembers(Order(init), c.op.key);
      forall k | k in rest ensures LastCall(h, k) == LastCall(init, k) < |h| - 1 {}
      assert Falling(h, rest);
    }
  }

  lemma {:induction false} LastUsedIsCall<V>(h: seq<Call<V>>, u: nat, key: string)
    ensures LastUsed(h, u, key) <==> u == LastCall(h, key) && Uses(h[u])
  {
  }

  lemma {:induction false} AheadIffLater<V>(h: seq<Call<V>>, p: nat, q: nat)
    requires p < |Order(h)| && q < |Order(h)|
    ensures q < p <==> LastCall(h, Order(h)[p]) < LastCall(h, Order(h)[q])
  {
    OrderFalls(h);
  }

  lemma InFront(order: seq<string>, p: nat, q: nat)
    requires p <= |order| && q < |order|
    ensures q < p ==> order[q] in order[..p]
  {
    if q < p { assert order[..p][q] == order[q]; }
  }

  lemma {:induction false} AheadOf<V>(h: seq<Call<V>>, p: nat, k: string)
    requires p < |Order(h)|
    ensures k in Order(h)[..p] <==> k in Order(h) && LastCall(h, Order(h)[p]) < LastCall(h, k)
  {
    var order := Order(h);
    if k in order[..p] {
      var q :| 0 <= q < p && order[q] == k;
      AheadIffLater(h, p, q);
    } else if k in order {
      var q :| 0 <= q < |order| && order[q] == k;
      AheadIffLater(h, p, q);
      InFront(order, p, q);
    }
  }

  /** What stands in front of a key is what was used since. */
  lemma {:induction false} UsedSinceIsAhead<V>(h: seq<Call<V>>, u: nat, p: nat, k: string)
    requires p < |Order(h)| && LastUsed(h, u, Order(h)[p])
    ensures k in UsedSince(h, u) <==> k in Order(h)[..p]
  {
    AheadOf(h, p, k);
    OrderMembers(h, k);
    LastUsedIsCall(h, u, Order(h)[p]);
    if k in Order(h) { assert LastUsed(h, LastCall(h, k), k); }
  }

  ghost function Elements(order: seq<string>): set<string> {
    set k | k in order
  }

  lemma {:induction false} DistinctSize(order: seq<string>)
    requires forall i, j :: 0 <= i < j < |order| ==> order[i] != order[j]
    ensures |Elements(order)| == |order|
  {
    if order != [] {
      var n := |order| - 1;
      DistinctSize(order[..n]);
      assert order == order[..n] + [order[n]];
      assert Elements(order) == Elements(order[..n]) + {order[n]};
    }
  }

  lemma {:induction false} UsedSinceSize<V>(h: seq<Call<V>>, u: nat, p: nat)
    requires p < |Order(h)| && LastUsed(h, u, Order(h)[p])
    ensures |UsedSince(h, u)| == p
  {
    forall k ensures k in UsedSince(h, u) <==> k in Order(h)[..p] { UsedSinceIsAhead(h, u, p, k); }
    assert UsedSince(h, u) == Elements(Order(h)[..p]);
    OrderFalls(h);
    DistinctSize(Order(h)[..p]);
  }

  // ---------- the list holds the first of them ----------

  function KeysOf<V>(s: Recency<V>): seq<string> {
    seq(|s|, i requires 0 <= i < |s| => s[i].key)
  }

  lemma {:induction false} KeysWithout<V>(s: Recency<V>, key: string)
    ensures KeysOf(Without(s, key)) == Dropped(KeysOf(s), key)
  {
    if s != [] {
      KeysWithout(s[1..], key);
      assert KeysOf(s)[1..] == KeysOf(s[1..]) && KeysOf(s)[0] == s[0].key;
    }
  }

  lemma {:induction false} PrefixDropped(a: seq<string>, b: seq<string>, key: string)
    requires a <= b
    ensures Dropped(a, key) <= Dropped(b, key)
  {
    assert b == a + b[|a|..];
    DroppedConcat(a, b[|a|..], key);
  }

  lemma CallsInit<V>(capacity: nat, ops: seq<Op<V>>, stale: (V, int) -> bool)
    requires 0 < capacity && ops != []
    ensures var init := ops[..|ops| - 1];
            var s, h := Run(capacity, init, stale).0, Calls(capacity, init, stale);
            var step := Step(s, capacity, ops[|ops| - 1], stale);
            Calls(capacity, ops, stale) == h + [Call(ops[|ops| - 1], step.1)] && Run(capacity, ops, stale).0 == step.0
  {
  }

  lemma {:induction false} KeyListed<V>(s: Recency<V>, key: string)
    ensures Find(s, key).Some? <==> key in KeysOf(s)
  {
    FindIffKey(s, key);
    if e :| e in s && e.key == key {
      var i :| 0 <= i < |s| && s[i] == e;
      assert KeysOf(s)[i] == key;
    }
    if key in KeysOf(s) {
      var i :| 0 <= i < |s| && KeysOf(s)[i] == key;
      assert s[i] in s;
    }
  }

  lemma KeysOfFront<V>(e: Entry<V>, s: Recency<V>)
    ensures KeysOf([e] + s) == [e.key] + KeysOf(s)
  {
  }

  lemma {:induction false} InsertedFirst<V>(s: Recency<V>, capacity: nat, key: string, value: V)
    requires 0 < capacity && Find(s, key).None?
    ensures KeysOf(Put(s, capacity, key, value)) ==
            [key] + if |s| >= capacity then KeysOf(s)[..|s| - 1] else KeysOf(s)
  {
    if |s| >= capacity {
      KeysOfFront(Entry(key, value), s[..|s| - 1]);
      assert KeysOf(s[..|s| - 1]) == KeysOf(s)[..|s| - 1];
    } else {
      KeysOfFront(Entry(key, value), s);
    }
  }

  lemma {:induction false} PromotedFirst<V>(s: Recency<V>, key: string, value: V)
    ensures KeysOf(Promote(s, key, value)) == [key] + Dropped(KeysOf(s), key)
  {
    KeysWithout(s, key);
    KeysOfFront(Entry(key, value), Without(s, key));
  }

  lemma {:induction false} StepFirst<V>(s: Recency<V>, capacity: nat, op: Op<V>, stale: (V, int) -> bool,
      order: seq<string>)
    requires 0 < capacity && KeysOf(s) <= order
    ensures var step := Step(s, capacity, op, stale);
            KeysOf(step.0) <= (if Uses(Call(op, step.1)) then [op.key] else []) + Dropped(order, op.key)
  {
    PrefixDropped(KeysOf(s), order, op.key);
    if Find(s, op.key).None? {
      KeyListed(s, op.key);
      DroppedAbsent(KeysOf(s), op.key);
      if op.Set? { InsertedFirst(s, capacity, op.key, op.value); }
    } else if op.Set? {
      PromotedFirst(s, op.key, op.value);
    } else {
      PromotedFirst(s, op.key, Find(s, op.key).value);
      KeysWithout(s, op.key);
    }
  }

  lemma {:induction false} RunFirst<V>(capacity: nat, ops: seq<Op<V>>, stale: (V, int) -> bool)
    requires 0 < capacity
    ensures KeysOf(Run(capacity, ops, stale).0) <= Order(Calls(capacity, ops, stale))
  {
    if ops != [] {
      var init := ops[..|ops| - 1];
      var h := Calls(capacity, init, stale);
      RunFirst(capacity, init, stale);
      CallsInit(capacity, ops, stale);
      assert Calls(capacity, ops, stale)[..|init|] == h;
      StepFirst(Run(capacity, init, stale).0, capacity, ops[|init|], stale, Order(h));
    }
  }

  // ---------- the law ----------

  /** One more call on another key leaves where and when `key` was last used. */
  lemma RetainedOneMore<V>(h: seq<Call<V>>, c: Call<V>, u: nat, key: string, capacity: nat)
    requires c.op.key != key
    ensures Retained(h + [c], u, key, capacity) <==> Retained(h, u, key, capacity) && |UsedSince(h + [c], u)| < capacity
  {
    var h' := h + [c];
    assert h'[..|h'|] == h' && forall t :: 0 <= t <= |h| ==> h'[..t] == h[..t];
    if LastUsed(h', u, key) {
      assert h'[u] == h[u] && forall i :: u < i < |h| ==> h'[i] == h[i];
    }
  }

  lemma RetainedNow<V>(h: seq<Call<V>>, c: Call<V>, capacity: nat)
    requires 0 < capacity
    ensures Uses(c) <==> exists u: nat :: Retained(h + [c], u, c.op.key, capacity)
  {
    var h' := h + [c];
    if Uses(c) {
      assert h'[..|h'|] == h' && UsedSince(h', |h|) == {};
      assert Retained(h', |h|, c.op.key, capacity);
    } else if u: nat :| Retained(h', u, c.op.key, capacity) {
      assert h'[|h|] == c;
    }
  }

  lemma LastKey<V>(s: Recency<V>, key: string)
    requires Distinct(s) && s != []
    ensures key in KeysOf(s)[..|s| - 1] <==> key in KeysOf(s) && s[|s| - 1].key != key
  {
    var n := |s| - 1;
    assert KeysOf(s) == KeysOf(s)[..n] + [s[n].key];
  }

  /** A call takes at most one other key out of the list: the last of a full one, for a new key. */
  lemma {:induction false} StepEvicts<V>(s: Recency<V>, capacity: nat, op: Op<V>, stale: (V, int) -> bool, key: string)
    requires 0 < capacity && Distinct(s) && |s| <= capacity && op.key != key
    ensures var s' := Step(s, capacity, op, stale).0;
            Find(s', key).Some? <==>
            Find(s, key).Some? && !(op.Set? && Find(s, op.key).None? && |s| == capacity && s[capacity - 1].key == key)
  {
    KeyListed(s, key);
    KeyListed(Step(s, capacity, op, stale).0, key);
    DroppedMembers(KeysOf(s), op.key);
    if Find(s, op.key).None? {
      if op.Set? {
        InsertedFirst(s, capacity, op.key, op.value);
        if |s| == capacity { LastKey(s, key); }
      }
    } else if op.Set? {
      PromotedFirst(s, op.key, op.value);
    } else {
      PromotedFirst(s, op.key, Find(s, op.key).value);
      KeysWithout(s, op.key);
    }
  }

  lemma KeyAt<V>(s: Recency<V>, key: string) returns (p: nat)
    requires Find(s, key).Some?
    ensures p < |s| && KeysOf(s)[p] == key
  {
    KeyListed(s, key);
    p :| p < |s| && KeysOf(s)[p] == key;
  }

  lemma {:induction false} UsedSinceInList<V>(h: seq<Call<V>>, s: Recency<V>, u: nat, key: string)
    requires KeysOf(s) <= Order(h) && Find(s, key).Some? && LastUsed(h, u, key)
    ensures |UsedSince(h, u)| < |s|
  {
    var p := KeyAt(s, key);
    UsedSinceSize(h, u, p);
  }

  /** A new key is used most recently, and the listed ones come next in their order. */
  lemma {:induction false} NewKeyFirst<V>(h: seq<Call<V>>, c: Call<V>, s: Recency<V>)
    requires KeysOf(s) <= Order(h) && c.op.Set? && c.op.key !in KeysOf(s)
    ensures [c.op.key] + KeysOf(s) <= Order(h + [c])
  {
    assert (h + [c])[..|h|] == h;
    PrefixDropped(KeysOf(s), Order(h), c.op.key);
    DroppedAbsent(KeysOf(s), c.op.key);
  }

  /** The key that is evicted has the whole capacity in front of it afterwards. */
  lemma {:induction false} EvictedIsBehind<V>(h: seq<Call<V>>, c: Call<V>, s: Recency<V>, u: nat, key: string)
    requires KeysOf(s) <= Order(h) && s != [] && s[|s| - 1].key == key && LastUsed(h, u, key)
    requires c.op.Set? && c.op.key != key && c.op.key !in KeysOf(s)
    ensures |UsedSince(h + [c], u)| == |s|
  {
    var h', n := h + [c], |s|;
    NewKeyFirst(h, c, s);
    assert Order(h')[n] == ([c.op.key] + KeysOf(s))[n] == key;
    assert h'[u] == h[u];
    UsedSinceSize(h', u, n);
  }

  lemma {:induction false} PresentStep<V>(h: seq<Call<V>>, s: Recency<V>, capacity: nat, op: Op<V>,
      stale: (V, int) -> bool, key: string)
    requires 0 < capacity && Distinct(s) && |s| <= capacity && KeysOf(s) <= Order(h) && op.key != key
    requires Find(s, key).Some? <==> exists u: nat :: Retained(h, u, key, capacity)
    ensures var step := Step(s, capacity, op, stale);
            Find(step.0, key).Some? <==> exists u: nat :: Retained(h + [Call(op, step.1)], u, key, capacity)
  {
    var step := Step(s, capacity, op, stale);
    var c := Call(op, step.1);
    forall u: nat ensures Retained(h + [c], u, key, capacity) <==>
                     Retained(h, u, key, capacity) && |UsedSince(h + [c], u)| < capacity
    {
      RetainedOneMore(h, c, u, key, capacity);
    }
    StepEvicts(s, capacity, op, stale, key);
    KeyListed(s, op.key);
    if Find(s, key).Some? {
      var u: nat :| Retained(h, u, key, capacity);
      if Find(step.0, key).Some? {
        StepInvariant(s, capacity, op, stale);
        StepFirst(s, capacity, op, stale, Order(h));
        assert (h + [c])[..|h|] == h && (h + [c])[u] == h[u];
        UsedSinceInList(h + [c], step.0, u, key);
        assert Retained(h + [c], u, key, capacity);
      } else {
        EvictedIsBehind(h, c, s, u, key);
        forall v: nat | Retained(h, v, key, capacity) ensures v == u {}
      }
    }
  }

  /** The law: a key is in the cache exactly if the last call on it used it, and at no time since have
      as many other keys as there are places been used more recently. A key whose last call missed,
      because it was evicted or had expired, counts as not used. */
  lemma {:induction false} PresentIff<V>(capacity: nat, ops: seq<Op<V>>, stale: (V, int) -> bool, key: string)
    requires 0 < capacity
    ensures Find(Run(capacity, ops, stale).0, key).Some? <==>
            exists u: nat :: Retained(Calls(capacity, ops, stale), u, key, capacity)
  {
    if ops != [] {
      var init, op := ops[..|ops| - 1], ops[|ops| - 1];
      var s, h := Run(capacity, init, stale).0, Calls(capacity, init, stale);
      CallsInit(capacity, ops, stale);
      RunInvariant(capacity, init, stale);
      if op.key == key {
        UsedIsFound(s, capacity, op, stale);
        RetainedNow(h, Call(op, Step(s, capacity, op, stale).1), capacity);
      } else {
        PresentIff(capacity, init, stale, key);
        RunFirst(capacity, init, stale);
        PresentStep(h, s, capacity, op, stale, key);
      }
    }
  }

  lemma UsedIsFound<V>(s: Recency<V>, capacity: nat, op: Op<V>, stale: (V, int) -> bool)
    requires 0 < capacity
    ensures var step := Step(s, capacity, op, stale);
            Find(step.0, op.key).Some? <==> Uses(Call(op, step.1))
  {
    WithoutMembers(s, op.key);
    FindIffKey(Without(s, op.key), op.key);
  }

  /** Hence every answer of every trace: a Get is answered with what the last Set of its key stored if
      the key is retained and the value not stale, and not at all otherwise. */
  lemma AnswerExact<V>(capacity: nat, ops: seq<Op<V>>, stale: (V, int) -> bool, n: nat)
    requires 0 < capacity && n < |ops| && ops[n].Get?
    ensures var h, stored := Calls(capacity, ops, stale), LastSet(ops[..n], ops[n].key);
            h[n].answer ==
            if (exists u: nat :: Retained(h[..n], u, ops[n].key, capacity)) &&
               stored.Some? && !stale(stored.value, ops[n].now)
            then stored else None
  {
    CallsPrefix(capacity, ops, stale, n);
    CallsPrefix(capacity, ops, stale, n + 1);
    assert Calls(capacity, ops, stale)[..n + 1][n] == Calls(capacity, ops, stale)[n];
    assert ops[..n + 1] == ops[..n] + [ops[n]];
    NextAnswer(capacity, ops[..n], stale, ops[n]);
  }

  lemma {:induction false} NextAnswer<V>(capacity: nat, ops: seq<Op<V>>, stale: (V, int) -> bool, op: Op<V>)
    requires 0 < capacity && op.Get?
    ensures var h, stored := Calls(capacity, ops, stale), LastSet(ops, op.key);
            Calls(capacity, ops + [op], stale)[|ops|].answer ==
            if (exists u: nat :: Retained(h, u, op.key, capacity)) && stored.Some? && !stale(stored.value, op.now)
            then stored else None
  {
    assert (ops + [op])[..|ops|] == ops;
    CallsInit(capacity, ops + [op], stale);
    PresentIff(capacity, ops, stale, op.key);
    HitReturnsLastSet(capacity, ops, stale, op.key);
  }

  lemma {:induction false} CallsPrefix<V>(capacity: nat, ops: seq<Op<V>>, stale: (V, int) -> bool, n: nat)
    requires 0 < capacity && n <= |ops|
    ensures Calls(capacity, ops, stale)[..n] == Calls(capacity, ops[..n], stale)
  {
    if n == |ops| {
      assert ops[..n] == ops;
    } else {
      var init := ops[..|ops| - 1];
      CallsPrefix(capacity, init, stale, n);
      CallsInit(capacity, ops, stale);
      assert init[..n] == ops[..n];
    }
  }
}
