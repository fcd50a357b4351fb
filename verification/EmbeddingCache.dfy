/** The pointer-level LRU cache of the embeddings service: a doubly linked list with two
    sentinels beside a key index. Every method is proved to perform the corresponding
    step on the abstract recency list.
 */
module EmbeddingCache {
  import opened Wrappers
  import opened RecencyList

  const DEFAULT_MAX_SIZE: nat := 1000

  predicate NeverStale<V>(value: V, now: int) { false }

  class Node<V> {
    const key: string
    var value: Option<V>
    var prev: Node?<V>
    var next: Node?<V>

    constructor (key: string, value: Option<V>)
      ensures this.key == key && this.value == value && prev == null && next == null
    {
      this.key, this.value := key, value;
      prev, next := null, null;
    }
  }

  /** A sentinel at each end, neighbours point at each other, no node occurs twice. */
  ghost predicate Linked<V>(chain: seq<Node<V>>, repr: set<Node<V>>)
    reads repr`prev, repr`next
  {
    && 2 <= |chain|
    && (forall i :: 0 <= i < |chain| ==> chain[i] in repr)
    && (forall i, j :: 0 <= i < j < |chain| ==> chain[i] != chain[j])
    && (forall i {:trigger chain[i].next} :: 0 <= i < |chain| - 1 ==> chain[i].next == chain[i + 1])
    && (forall i {:trigger chain[i].prev} :: 0 < i < |chain| ==> chain[i].prev == chain[i - 1])
  }

  /** Every inner node of the list is in the index under its key, and the index has no more entries. */
  ghost predicate Indexed<V>(chain: seq<Node<V>>, entries: map<string, Node<V>>) {
    && 2 <= |chain|
    && (forall i :: 0 < i < |chain| - 1 ==> chain[i].key in entries && entries[chain[i].key] == chain[i])
    && |entries| == |chain| - 2
  }

  /** The inner nodes carry the abstract contents, in order. */
  ghost predicate Represents<V>(chain: seq<Node<V>>, contents: Recency<V>, repr: set<Node<V>>)
    reads repr`value
  {
    && |chain| == |contents| + 2
    && forall i :: 0 < i < |chain| - 1 ==>
         && chain[i] in repr
         && chain[i].key == contents[i - 1].key
         && chain[i].value == Some(contents[i - 1].value)
  }

  // ---------- rearrangements of list, index and contents ----------

  /** `s` with its element `i` moved to position `to`. */
  ghost function MovedTo<T>(s: seq<T>, i: nat, to: nat): (r: seq<T>)
    requires to <= i < |s|
    ensures |r| == |s|
    ensures forall j :: 0 <= j < |s| ==> r[j] == s[if j < to || j > i then j else if j == to then i else j - 1]
  {
    s[..to] + [s[i]] + s[to..i] + s[i + 1..]
  }

  lemma RemoveThenPush<T>(s: seq<T>, i: nat)
    requires 0 < i < |s|
    ensures [s[0], s[i]] + (s[..i] + s[i + 1..])[1..] == MovedTo(s, i, 1)
  {
    assert (s[..i] + s[i + 1..])[1..] == s[1..i] + s[i + 1..];
  }

  lemma PromoteIsMove<V>(c: Recency<V>, i: nat, value: V)
    requires Distinct(c) && i < |c|
    ensures MovedTo(c[i := Entry(c[i].key, value)], i, 0) == Promote(c, c[i].key, value)
    ensures Distinct(Promote(c, c[i].key, value))
  {
    WithoutAt(c, i);
    WithoutDistinct(c, c[i].key);
    WithoutMembers(c, c[i].key);
  }

  lemma IndexedMoved<V>(chain: seq<Node<V>>, entries: map<string, Node<V>>, i: nat)
    requires Indexed(chain, entries) && 0 < i < |chain| - 1
    ensures Indexed(MovedTo(chain, i, 1), entries)
  {
  }

  lemma RepresentsMoved<V>(chain: seq<Node<V>>, contents: Recency<V>, repr: set<Node<V>>, i: nat)
    requires Represents(chain, contents, repr) && 0 < i < |chain| - 1
    ensures Represents(MovedTo(chain, i, 1), MovedTo(contents, i - 1, 0), repr)
  {
  }

  lemma RepresentsInsert<V>(chain: seq<Node<V>>, contents: Recency<V>, repr: set<Node<V>>, entry: Node<V>, value: V)
    requires Represents(chain, contents, repr) && entry.value == Some(value)
    ensures Represents([chain[0], entry] + chain[1..], [Entry(entry.key, value)] + contents, repr + {entry})
  {
  }

  lemma LinkedInsert<V>(chain: seq<Node<V>>, repr: set<Node<V>>, entry: Node<V>)
    requires Linked(chain, repr) && entry !in repr
    ensures Linked(chain, repr + {entry}) && entry !in chain
  {
  }

  lemma RepresentsWithoutLast<V>(chain: seq<Node<V>>, contents: Recency<V>, repr: set<Node<V>>)
    requires Represents(chain, contents, repr) && contents != []
    ensures Represents(chain[..|chain| - 2] + [chain[|chain| - 1]], contents[..|contents| - 1], repr)
  {
  }

  lemma IndexedWithoutLast<V>(chain: seq<Node<V>>, entries: map<string, Node<V>>)
    requires Indexed(chain, entries) && 2 < |chain|
    requires forall i :: 0 < i < |chain| - 2 ==> chain[i] != chain[|chain| - 2]
    ensures Indexed(chain[..|chain| - 2] + [chain[|chain| - 1]], entries - {chain[|chain| - 2].key})
  {
    var lru := chain[|chain| - 2];
    assert entries.Keys == (entries - {lru.key}).Keys + {lru.key};
  }

  lemma IndexedInsert<V>(chain: seq<Node<V>>, entries: map<string, Node<V>>, entry: Node<V>)
    requires Indexed(chain, entries) && entry.key !in entries
    ensures Indexed([chain[0], entry] + chain[1..], entries[entry.key := entry])
  {
  }

  lemma GetMovesUp<V>(s: Recency<V>, capacity: nat, key: string)
    requires 0 < capacity && Distinct(s)
    ensures var step := Step(s, capacity, Op.Get(key, 0), NeverStale);
            if step.1.None? then step.0 == s else MovedUp(s, step.0, Entry(key, step.1.value))
  {
    FindIffKey(s, key);
    if Find(s, key).Some? {
      var i :| 0 <= i < |s| && s[i] == Entry(key, Find(s, key).value);
      PromoteMovesUp(s, i);
    }
  }

  class LruCache<V> {
    const maxSize: nat
    var entries: map<string, Node<V>>
    const head: Node<V>
    const tail: Node<V>
    /** All nodes from `head` to `tail`, most recent first. */
    ghost var chain: seq<Node<V>>
    /** The abstract value of the cache. */
    ghost var contents: Recency<V>
    ghost var Repr: set<Node<V>>

    ghost predicate Sentinels()
      reads this`chain
    {
      2 <= |chain| && chain[0] == head && chain[|chain| - 1] == tail
    }

    ghost predicate Valid()
      reads this, Repr
    {
      && 0 < maxSize
      && Sentinels()
      && Linked(chain, Repr)
      && Indexed(chain, entries)
      && Represents(chain, contents, Repr)
      && Distinct(contents)
      && |contents| <= maxSize
    }

    constructor (maxSize: int)
      ensures Valid() && contents == [] && fresh(Repr)
      ensures this.maxSize == if maxSize <= 0 then 1000 else maxSize
    {
      this.maxSize := if maxSize <= 0 then DEFAULT_MAX_SIZE else maxSize;
      entries := map[];
      var h := new Node<V>("", None);
      var t := new Node<V>("", None);
      head, tail := h, t;
      chain, contents, Repr := [h, t], [], {h, t};
      new;
      head.next := tail;
      tail.prev := head;
    }

    /** Unlinks the node at position `i` of the list. */
    method RemoveNode(entry: Node<V>, ghost i: nat)
      requires Sentinels() && Linked(chain, Repr) && 0 < i < |chain| - 1 && chain[i] == entry
      modifies this`chain, Repr`prev, Repr`next
      ensures chain == old(chain[..i] + chain[i + 1..])
      ensures Sentinels() && Linked(chain, Repr)
    {
      assert entry.prev == chain[i - 1] && entry.next == chain[i + 1];
      entry.prev.next := entry.next;
      entry.next.prev := entry.prev;
      entry.prev := null;
      entry.next := null;
      chain := chain[..i] + chain[i + 1..];
    }

    /** Links `entry` in directly after the head sentinel. */
    method PushFront(entry: Node<V>)
      requires Sentinels() && Linked(chain, Repr) && entry !in chain && entry in Repr
      modifies this`chain, Repr`prev, Repr`next
      ensures chain == [head, entry] + old(chain[1..])
      ensures Sentinels() && Linked(chain, Repr)
    {
      assert head.next == chain[1];
      entry.next := head.next;
      entry.prev := head;
      head.next.prev := entry;
      head.next := entry;
      chain := [head, entry] + chain[1..];
    }

    method MoveToFront(entry: Node<V>, ghost i: nat)
      requires Sentinels() && Linked(chain, Repr) && 0 < i < |chain| - 1 && chain[i] == entry
      modifies this`chain, Repr`prev, Repr`next
      ensures chain == MovedTo(old(chain), i, 1)
      ensures Sentinels() && Linked(chain, Repr)
    {
      RemoveThenPush(chain, i);
      RemoveNode(entry, i);
      PushFront(entry);
    }

    /** The assignment `entry.value = value` of Set. */
    method UpdateValue(entry: Node<V>, value: V, ghost i: nat)
      requires Linked(chain, Repr) && Represents(chain, contents, Repr)
      requires 0 < i < |chain| - 1 && chain[i] == entry
      modifies entry`value
      ensures Represents(chain, contents[i - 1 := Entry(entry.key, value)], Repr)
    {
      entry.value := Some(value);
    }

    lemma Present(key: string) returns (i: nat)
      requires Valid() && key in entries
      ensures 0 < i < |chain| - 1 == |contents| + 1 && chain[i] == entries[key] && entries[key].key == key
      ensures contents[i - 1].key == key && entries[key].value == Some(contents[i - 1].value)
      ensures Find(contents, key) == Some(contents[i - 1].value)
    {
      if forall j :: 0 <= j < |contents| ==> contents[j].key != key {
        // all inner keys would fit into an index of one entry less
        assert forall j :: 0 <= j < |contents| ==> chain[j + 1].key == contents[j].key;
        DistinctPrefixSize(contents, |contents|, entries.Keys - {key});
      }
      var j :| 0 <= j < |contents| && contents[j].key == key;
      i := j + 1;
      assert chain[i].key == key;
      FindAt(contents, j);
    }

    lemma {:induction false} Absent(key: string)
      requires Valid() && key !in entries
      ensures Find(contents, key) == None
      ensures forall i :: 0 <= i < |contents| ==> contents[i].key != key
    {
      FindIffKey(contents, key);
      forall i | 0 <= i < |contents| ensures contents[i].key != key { assert chain[i + 1].key in entries; }
    }

    method Get(key: string) returns (r: Option<V>)
      requires Valid()
      modifies this, Repr
      ensures Valid() && Repr == old(Repr)
      ensures (contents, r) == Step(old(contents), maxSize, Op.Get(key, 0), NeverStale)
      ensures r.None? ==> contents == old(contents)
      ensures r.Some? ==> MovedUp(old(contents), contents, Entry(key, r.value))
    {
      GetMovesUp(contents, maxSize, key);
      if key !in entries {
        Absent(key);
        return None;
      }
      var entry := entries[key];
      ghost var i := Present(key);
      ghost var promoted := Promote(contents, key, contents[i - 1].value);
      assert Distinct(promoted) && Represents(MovedTo(chain, i, 1), promoted, Repr) by {
        PromoteIsMove(contents, i - 1, contents[i - 1].value);
        assert contents[i - 1 := Entry(key, contents[i - 1].value)] == contents;
        RepresentsMoved(chain, contents, Repr, i);
      }
      IndexedMoved(chain, entries, i);
      MoveToFront(entry, i);
      contents := promoted;
      r := entry.value;
    }

    method Set(key: string, value: V)
      requires Valid()
      modifies this, Repr
      ensures Valid() && fresh(Repr - old(Repr))
      ensures contents == Step(old(contents), maxSize, Op.Set(key, value), NeverStale).0
    {
      if key in entries {
        var entry := entries[key];
        ghost var i := Present(key);
        ghost var promoted := Promote(contents, key, value);
        UpdateValue(entry, value, i);
        assert Distinct(promoted) && Represents(MovedTo(chain, i, 1), promoted, Repr) by {
          PromoteIsMove(contents, i - 1, value);
          RepresentsMoved(chain, contents[i - 1 := Entry(key, value)], Repr, i);
        }
        IndexedMoved(chain, entries, i);
        MoveToFront(entry, i);
        contents := promoted;
        return;
      }
      Insert(key, value);
    }

    /** The half of Set that meets a new key. */
    method Insert(key: string, value: V)
      requires Valid() && key !in entries
      modifies this, Repr
      ensures Valid() && fresh(Repr - old(Repr))
      ensures contents == Step(old(contents), maxSize, Op.Set(key, value), NeverStale).0
    {
      Absent(key);
      StepInvariant(contents, maxSize, Op.Set(key, value), NeverStale);
      if |entries| >= maxSize {
        EvictLRU();
      }
      PushEntry(key, value);
    }

    /** Links a new node in for a key the cache has room for. */
    method PushEntry(key: string, value: V)
      requires Valid() && key !in entries && |contents| < maxSize
      requires Distinct([Entry(key, value)] + contents)
      modifies this, Repr
      ensures Valid() && fresh(Repr - old(Repr))
      ensures contents == [Entry(key, value)] + old(contents)
    {
      var entry := new Node<V>(key, Some(value));
      Attach(entry, value);
    }

    method Attach(entry: Node<V>, value: V)
      requires Valid() && entry !in Repr && entry.value == Some(value)
      requires entry.key !in entries && |contents| < maxSize && Distinct([Entry(entry.key, value)] + contents)
      modifies this, Repr, entry
      ensures Valid() && Repr == old(Repr) + {entry}
      ensures contents == [Entry(entry.key, value)] + old(contents)
    {
      LinkedInsert(chain, Repr, entry);
      IndexedInsert(chain, entries, entry);
      RepresentsInsert(chain, contents, Repr, entry, value);
      entries := entries[entry.key := entry];
      Repr := Repr + {entry};
      PushFront(entry);
      contents := [Entry(entry.key, value)] + contents;
    }

    /** The node before the tail sentinel is the least recent entry, or the head if there is none. */
    lemma LeastRecent()
      requires Valid()
      ensures |chain| == |contents| + 2 && tail.prev == chain[|chain| - 2]
      ensures tail.prev == head <==> contents == []
      ensures contents != [] ==>
                && Indexed(chain[..|chain| - 2] + [tail], entries - {chain[|chain| - 2].key})
                && Represents(chain[..|chain| - 2] + [tail], contents[..|contents| - 1], Repr)
    {
      if contents != [] {
        IndexedWithoutLast(chain, entries);
        RepresentsWithoutLast(chain, contents, Repr);
      }
    }

    method EvictLRU()
      requires Valid()
      modifies this, Repr`prev, Repr`next
      ensures Valid() && Repr == old(Repr)
      ensures contents == if old(contents) == [] then [] else old(contents[..|contents| - 1])
      ensures entries.Keys <= old(entries.Keys)
    {
      LeastRecent();
      if tail.prev == head {
        return;
      }
      var lru := tail.prev;
      ghost var i := |chain| - 2;
      RemoveNode(lru, i);
      assert chain == old(chain)[..i] + [tail];
      entries := entries - {lru.key};
      contents := contents[..i - 1];
    }

    /** The node reached from `n` by `steps` next links; the walk ends at the list's last node. */
    ghost function Forward(n: Node?<V>, steps: nat): Node?<V>
      reads Repr, this`Repr
    {
      if steps == 0 || n == null || n !in Repr then n else Forward(n.next, steps - 1)
    }

    ghost function Backward(n: Node?<V>, steps: nat): Node?<V>
      reads Repr, this`Repr
    {
      if steps == 0 || n == null || n !in Repr then n else Backward(n.prev, steps - 1)
    }

    /** The walk from the head meets `n` at its `i`th node, before the tail. */
    ghost predicate MeetsAt(i: nat, n: Node<V>)
      reads this, Repr
    {
      1 <= i <= |entries| && Forward(head, i) == n
    }

    lemma {:induction false} ForwardAt(i: nat, steps: nat)
      requires Linked(chain, Repr) && i + steps < |chain|
      ensures Forward(chain[i], steps) == chain[i + steps]
      decreases steps
    {
      if steps > 0 {
        ForwardAt(i + 1, steps - 1);
      }
    }

    lemma {:induction false} BackwardAt(i: nat, steps: nat)
      requires Linked(chain, Repr) && steps <= i < |chain|
      ensures Backward(chain[i], steps) == chain[i - steps]
      decreases steps
    {
      if steps > 0 {
        BackwardAt(i - 1, steps - 1);
      }
    }

    /** The walks in both directions are at the same node after steps that add up to the list. */
    lemma {:induction false} WalkAt(i: nat)
      requires Valid() && i <= |entries| + 1
      ensures |chain| == |entries| + 2 && Forward(head, i) == chain[i] && Backward(tail, |entries| + 1 - i) == chain[i]
    {
      ForwardAt(0, i);
      BackwardAt(|entries| + 1, |entries| + 1 - i);
    }

    lemma WalkMeets(key: string)
      requires Valid() && key in entries
      ensures exists i :: MeetsAt(i, entries[key])
    {
      var i := Present(key);
      WalkAt(i);
      assert MeetsAt(i, entries[key]);
    }

    lemma {:induction false} WalkIsIndexed(i: nat)
      requires Valid() && 1 <= i <= |entries|
      ensures var n := Forward(head, i); n != null && n.key in entries && entries[n.key] == n
    {
      WalkAt(i);
    }

    lemma {:induction false} WalkMovesOn(i: nat, j: nat)
      requires Valid() && i < j <= |entries| + 1
      ensures Forward(head, i) != Forward(head, j)
    {
      WalkAt(i);
      WalkAt(j);
    }

    /** Between the sentinels, a forward walk meets every indexed entry exactly once and then the
        tail; the backward walk from the tail retraces it. */
    lemma {:induction false} WalkMeetsEachEntryOnce()
      requires Valid()
      ensures Forward(head, |entries| + 1) == tail
      ensures forall i :: 0 <= i <= |entries| + 1 ==> Backward(tail, |entries| + 1 - i) == Forward(head, i)
      ensures forall k :: k in entries ==> exists i :: MeetsAt(i, entries[k])
      ensures forall i :: 1 <= i <= |entries| ==>
                var n := Forward(head, i); n != null && n.key in entries && entries[n.key] == n
      ensures forall i, j :: 1 <= i < j <= |entries| ==> Forward(head, i) != Forward(head, j)
    {
      WalkAt(|entries| + 1);
      forall i | 0 <= i <= |entries| + 1 ensures Backward(tail, |entries| + 1 - i) == Forward(head, i) { WalkAt(i); }
      forall k | k in entries ensures exists i :: MeetsAt(i, entries[k]) { WalkMeets(k); }
      forall i | 1 <= i <= |entries|
        ensures var n := Forward(head, i); n != null && n.key in entries && entries[n.key] == n
      {
        WalkIsIndexed(i);
      }
      forall i, j | 1 <= i < j <= |entries| ensures Forward(head, i) != Forward(head, j) { WalkMovesOn(i, j); }
    }

    method Len() returns (n: nat)
      requires Valid()
      ensures n == |contents|
    {
      n := |entries|;
    }
  }
}
