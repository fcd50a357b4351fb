/** Facts about sequences that several modules need. */
module Sequences {
  lemma Associates<T>(a: seq<T>, b: seq<T>, c: seq<T>)
    ensures (a + b) + c == a + (b + c)
  {
  }

  /** `s` without any `x`. */
  function Dropped<T(==)>(s: seq<T>, x: T): seq<T> {
    if s == [] then []
    else if s[0] == x then Dropped(s[1..], x)
    else [s[0]] + Dropped(s[1..], x)
  }

  lemma {:induction false} DroppedMembers<T>(s: seq<T>, x: T)
    ensures forall k :: k in Dropped(s, x) <==> k in s && k != x
  {
    if s != [] {
      assert s == [s[0]] + s[1..];
      DroppedMembers(s[1..], x);
    }
  }

  lemma {:induction false} DroppedAbsent<T>(s: seq<T>, x: T)
    requires x !in s
    ensures Dropped(s, x) == s
  {
    if s != [] { DroppedAbsent(s[1..], x); }
  }

  lemma {:induction false} DroppedConcat<T>(a: seq<T>, b: seq<T>, x: T)
    ensures Dropped(a + b, x) == Dropped(a, x) + Dropped(b, x)
  {
    if a == [] {
      assert a + b == b;
    } else {
      assert (a + b)[1..] == a[1..] + b;
      DroppedConcat(a[1..], b, x);
    }
  }
}
