/** When the exchange sort is stable. Each candidate that scores above `v` turns the candidates of
    score `v` in front of it by one place, so their order survives exactly if the turns add up to
    whole rounds.
 */
module MergeStability {
  import opened ModeRouter
  import opened Sequences

  /** The candidates of score `v`, in order. */
  function Equals(s: seq<Candidate>, v: real): seq<Candidate> {
    if s == [] then []
    else Equals(s[..|s| - 1], v) + if s[|s| - 1].score == v then [s[|s| - 1]] else []
  }

  /** The positions of the candidates above `v` with exactly `m` candidates of score `v` before them. */
  function Overtakers(s: seq<Candidate>, v: real, m: nat): set<nat> {
    set i: nat | i < |s| && s[i].score > v && |Equals(s[..i], v)| == m
  }

  /** Equal scores keep their order. */
  ghost predicate KeepsTies(s: seq<Candidate>, sorted: seq<Candidate>) {
    forall v: real :: Equals(sorted, v) == Equals(s, v)
  }

  /** The overtakers of every `m` candidates of score `v` come in multiples of `m`. */
  ghost predicate WholeRoundsAt(s: seq<Candidate>, v: real) {
    forall m: nat :: 0 < m ==> |Overtakers(s, v, m)| % m == 0
  }

  ghost predicate WholeRounds(s: seq<Candidate>) {
    forall v: real :: WholeRoundsAt(s, v)
  }

  lemma {:induction false} EqualsConcat(a: seq<Candidate>, b: seq<Candidate>, v: real)
    ensures Equals(a + b, v) == Equals(a, v) + Equals(b, v)
  {
    if b == [] {
      assert a + b == a;
    } else {
      assert (a + b)[..|a + b| - 1] == a + b[..|b| - 1];
      EqualsConcat(a, b[..|b| - 1], v);
    }
  }

  /** `group` with `x` in front if it belongs there. */
  function Joined(x: Candidate, group: seq<Candidate>, v: real): seq<Candidate> {
    if x.score == v then [x] + group else group
  }

  lemma {:induction false} EqualsCons(x: Candidate, s: seq<Candidate>, v: real)
    ensures Equals([x] + s, v) == Joined(x, Equals(s, v), v)
  {
    EqualsConcat([x], s, v);
    assert [x][..0] == [];
  }

  // ---------- the sort as a selection ----------

  datatype Sifted = Sifted(best: Candidate, rest: seq<Candidate>)

  /** Carries `x` along `s`, leaving it where something better is picked up. */
  function Sift(x: Candidate, s: seq<Candidate>): (r: Sifted)
    ensures |r.rest| == |s| && r.best.score >= x.score
    decreases |s|
  {
    if s == [] then Sifted(x, [])
    else if s[0].score > x.score then
      var r := Sift(s[0], s[1..]); r.(rest := [x] + r.rest)
    else
      var r := Sift(x, s[1..]); r.(rest := [s[0]] + r.rest)
  }

  function SelectionSort(s: seq<Candidate>): seq<Candidate>
    decreases |s|
  {
    if s == [] then []
    else
      var r := Sift(s[0], s[1..]);
      [r.best] + SelectionSort(r.rest)
  }

  /** One comparison of a pass is one step of the sifting. */
  lemma SiftStep(s: seq<Candidate>, i: nat, j: nat)
    requires i < j < |s|
    ensures var s' := if Better(false, s[j], s[i]) then Swapped(s, i, j) else s;
            var r, r' := Sift(s[i], s[j..]), Sift(s'[i], s'[j + 1..]);
            r.best == r'.best && r.rest == [s'[j]] + r'.rest && |s'| == |s| &&
            s'[..i] == s[..i] && s'[i + 1..j + 1] == s[i + 1..j] + [s'[j]]
  {
    var s' := if Better(false, s[j], s[i]) then Swapped(s, i, j) else s;
    assert s'[j + 1..] == s[j + 1..] && s[j..][1..] == s[j + 1..];
  }

  lemma {:induction false} PassIsSift(s: seq<Candidate>, i: nat, j: nat)
    requires i < j <= |s|
    ensures var r := Sift(s[i], s[j..]);
            Pass(false, s, i, j) == s[..i] + [r.best] + s[i + 1..j] + r.rest
    decreases |s| - j
  {
    if j == |s| {
      assert s == s[..i] + [s[i]] + s[i + 1..j] + [];
    } else {
      var s' := if Better(false, s[j], s[i]) then Swapped(s, i, j) else s;
      SiftStep(s, i, j);
      PassIsSift(s', i, j + 1);
      Regroup(s[..i] + [Sift(s[i], s[j..]).best], s[i + 1..j], s'[j], Sift(s'[i], s'[j + 1..]).rest);
    }
  }

  lemma Regroup<T>(a: seq<T>, b: seq<T>, y: T, c: seq<T>)
    ensures a + (b + [y]) + c == a + b + ([y] + c)
  {
  }

  lemma CutBehind<T>(a: seq<T>, x: T, none: seq<T>, c: seq<T>, p: seq<T>)
    requires none == [] && p == a + [x] + none + c
    ensures p[..|a| + 1] == a + [x] && p[|a| + 1..] == c
  {
  }

  lemma FirstPass(s: seq<Candidate>, i: nat)
    requires i < |s|
    ensures var r, p := Sift(s[i], s[i + 1..]), Pass(false, s, i, i + 1);
            p[..i + 1] == s[..i] + [r.best] && p[i + 1..] == r.rest
  {
    var r := Sift(s[i], s[i + 1..]);
    PassIsSift(s, i, i + 1);
    CutBehind(s[..i], r.best, s[i + 1..i + 1], r.rest, Pass(false, s, i, i + 1));
  }

  lemma SelectionStep(s: seq<Candidate>, i: nat)
    requires i < |s|
    ensures var r := Sift(s[i], s[i + 1..]); SelectionSort(s[i..]) == [r.best] + SelectionSort(r.rest)
  {
    assert s[i..][0] == s[i] && s[i..][1..] == s[i + 1..];
  }

  lemma {:induction false} SortIsSelection(s: seq<Candidate>, i: nat)
    requires i <= |s|
    ensures Exchanged(false, s, i) == s[..i] + SelectionSort(s[i..])
    decreases |s| - i
  {
    if i == |s| {
      assert s[i..] == [];
    } else {
      var r := Sift(s[i], s[i + 1..]);
      FirstPass(s, i);
      SortIsSelection(Pass(false, s, i, i + 1), i + 1);
      SelectionStep(s, i);
      Associates(s[..i], [r.best], SelectionSort(r.rest));
    }
  }

  // ---------- what selecting does to one score ----------

  /** For each candidate above `v`, how many of score `v` precede it, counting from `k`. */
  function Turns(s: seq<Candidate>, v: real, k: nat): seq<nat> {
    if s == [] then []
    else if s[0].score > v then [k] + Turns(s[1..], v, k)
    else Turns(s[1..], v, if s[0].score == v then k + 1 else k)
  }

  lemma TurnsCons(x: Candidate, s: seq<Candidate>, v: real, k: nat)
    ensures Turns([x] + s, v, k) ==
            if x.score > v then [k] + Turns(s, v, k) else Turns(s, v, if x.score == v then k + 1 else k)
  {
    assert ([x] + s)[1..] == s;
  }

  /** Something above `v` is carried: the rest looks the same from `v`. */
  lemma {:induction false} SiftHigh(x: Candidate, s: seq<Candidate>, v: real, k: nat)
    requires x.score > v
    ensures var r := Sift(x, s);
            r.best.score > v && Equals(r.rest, v) == Equals(s, v) && Turns(r.rest, v, k) == Turns(s, v, k)
    decreases |s|
  {
    if s != [] {
      var y, t := s[0], s[1..];
      assert s == [y] + t;
      var z := if y.score > x.score then y else x;
      var left := if y.score > x.score then x else y;
      var r := Sift(z, t);
      var k' := if y.score == v then k + 1 else k;
      SiftHigh(z, t, v, k');
      EqualsCons(y, t, v);
      EqualsCons(left, r.rest, v);
      TurnsCons(y, t, v, k);
      TurnsCons(left, r.rest, v, k);
    }
  }

  /** The first `m` elements turned by one place. */
  function Turned<T>(g: seq<T>, m: nat): (r: seq<T>)
    requires m <= |g|
    ensures |r| == |g|
  {
    if m == 0 then g else g[1..m] + [g[0]] + g[m..]
  }

  lemma TurnedFurther<T>(x: T, y: T, g: seq<T>, m: nat)
    requires 0 < m <= |g| + 1
    ensures [y] + Turned([x] + g, m) == Turned([x] + ([y] + g), m + 1)
  {
    assert ([x] + g)[1..m] == g[..m - 1] && ([x] + g)[m..] == g[m - 1..];
    assert ([x] + ([y] + g))[1..m + 1] == [y] + g[..m - 1] && ([x] + ([y] + g))[m + 1..] == g[m - 1..];
  }

  /** What is left of `s` after taking out the candidate that precedes the first one above `v`. */
  ghost predicate TakesTurn(r: Sifted, group: seq<Candidate>, ms: seq<nat>, v: real, k: nat) {
    && ms != [] && k <= ms[0] <= k + |group|
    && r.best.score > v && Turns(r.rest, v, k) == ms[1..]
    && Equals(r.rest, v) == Turned(group, ms[0] - k)
  }

  /** One comparison: the better of `x` and `y` is carried on, the other is left behind. */
  lemma SiftUnfold(x: Candidate, y: Candidate, t: seq<Candidate>)
    ensures var r := Sift(if y.score > x.score then y else x, t);
            Sift(x, [y] + t) == Sifted(r.best, [if y.score > x.score then x else y] + r.rest)
  {
    assert ([y] + t)[1..] == t;
  }

  lemma {:induction false} TurnsMeet(x: Candidate, y: Candidate, t: seq<Candidate>, v: real, k: nat)
    requires x.score <= v < y.score
    ensures var k' := if x.score == v then k + 1 else k; Turns([x] + ([y] + t), v, k) == [k'] + Turns(t, v, k')
  {
    TurnsCons(x, [y] + t, v, k);
    TurnsCons(y, t, v, if x.score == v then k + 1 else k);
  }

  lemma TurnedByOne<T>(x: T, g: seq<T>)
    ensures Turned([x] + g, 1) == [x] + g && Turned(g, 0) == g
  {
    assert ([x] + g)[1..1] == [] && ([x] + g)[1..] == g;
  }

  /** The first candidate above `v` takes the place of `x`. */
  lemma {:induction false} SiftMeets(x: Candidate, y: Candidate, t: seq<Candidate>, v: real, k: nat)
    requires x.score <= v < y.score
    ensures TakesTurn(Sift(x, [y] + t), Joined(x, Equals([y] + t, v), v), Turns([x] + ([y] + t), v, k), v, k)
  {
    var k' := if x.score == v then k + 1 else k;
    var r := Sift(y, t);
    SiftUnfold(x, y, t);
    SiftHigh(y, t, v, k');
    EqualsCons(y, t, v);
    EqualsCons(x, r.rest, v);
    TurnsCons(x, r.rest, v, k);
    TurnsMeet(x, y, t, v, k);
    TurnedByOne(x, Equals(t, v));
  }

  /** Leaving something below `v` behind changes nothing at `v`. */
  lemma LeaveLower(r: Sifted, left: Candidate, group: seq<Candidate>, ms: seq<nat>, v: real, k: nat)
    requires left.score < v && TakesTurn(r, group, ms, v, k)
    ensures TakesTurn(Sifted(r.best, [left] + r.rest), group, ms, v, k)
  {
    EqualsCons(left, r.rest, v);
    TurnsCons(left, r.rest, v, k);
  }

  /** Leaving another candidate of score `v` behind `x` puts it in front of it. */
  lemma LeaveEqual(r: Sifted, x: Candidate, y: Candidate, g: seq<Candidate>, ms: seq<nat>, v: real, k: nat)
    requires y.score == v && TakesTurn(r, [x] + g, ms, v, k + 1) && ms[0] > k + 1
    ensures TakesTurn(Sifted(r.best, [y] + r.rest), [x] + ([y] + g), ms, v, k)
  {
    var m: nat := ms[0] - k - 1;
    assert Equals(r.rest, v) == Turned([x] + g, m);
    EqualsCons(y, r.rest, v);
    TurnsCons(y, r.rest, v, k);
    TurnedFurther(x, y, g, m);
    assert ms[0] - k == m + 1;
  }

  /** A candidate of score `v` is carried past another of that score. */
  lemma {:induction false} SiftPassesEqual(x: Candidate, y: Candidate, t: seq<Candidate>, v: real, k: nat)
    requires x.score == y.score == v && Turns([x] + t, v, k + 1) != [] && Turns([x] + t, v, k + 1)[0] > k + 1
    requires TakesTurn(Sift(x, t), [x] + Equals(t, v), Turns([x] + t, v, k + 1), v, k + 1)
    ensures Turns([x] + ([y] + t), v, k) == Turns([x] + t, v, k + 1)
    ensures TakesTurn(Sift(x, [y] + t), [x] + Equals([y] + t, v), Turns([x] + ([y] + t), v, k), v, k)
  {
    TurnsCons(x, t, v, k + 1);
    TurnsCons(x, [y] + t, v, k);
    TurnsCons(y, t, v, k + 1);
    LeaveEqual(Sift(x, t), x, y, Equals(t, v), Turns([x] + t, v, k + 1), v, k);
    SiftUnfold(x, y, t);
    EqualsCons(y, t, v);
  }

  /** A candidate of score `v` is carried past one below. */
  lemma {:induction false} SiftPassesLower(x: Candidate, y: Candidate, t: seq<Candidate>, v: real, k: nat)
    requires x.score == v && y.score < v
    requires TakesTurn(Sift(x, t), [x] + Equals(t, v), Turns([x] + t, v, k), v, k)
    ensures Turns([x] + ([y] + t), v, k) == Turns([x] + t, v, k)
    ensures TakesTurn(Sift(x, [y] + t), [x] + Equals([y] + t, v), Turns([x] + ([y] + t), v, k), v, k)
  {
    TurnsCons(x, t, v, k);
    TurnsCons(x, [y] + t, v, k);
    TurnsCons(y, t, v, k + 1);
    LeaveLower(Sift(x, t), y, [x] + Equals(t, v), Turns([x] + t, v, k), v, k);
    SiftUnfold(x, y, t);
    EqualsCons(y, t, v);
  }

  lemma {:induction false} SiftLevel(x: Candidate, s: seq<Candidate>, v: real, k: nat)
    requires x.score == v && Turns([x] + s, v, k) != []
    ensures TakesTurn(Sift(x, s), [x] + Equals(s, v), Turns([x] + s, v, k), v, k) && Turns([x] + s, v, k)[0] > k
    decreases |s|
  {
    TurnsCons(x, s, v, k);
    var y, t := s[0], s[1..];
    assert s == [y] + t;
    TurnsCons(y, t, v, k + 1);
    if y.score > v {
      SiftMeets(x, y, t, v, k);
    } else {
      var k' := if y.score == v then k + 1 else k;
      TurnsCons(x, t, v, k');
      SiftLevel(x, t, v, k');
      if y.score == v {
        SiftPassesEqual(x, y, t, v, k);
      } else {
        SiftPassesLower(x, y, t, v, k);
      }
    }
  }

  /** Of `x` and `y`, one is carried on and the other, below `v`, is left behind. */
  lemma {:induction false} SiftHandsOver(x: Candidate, y: Candidate, t: seq<Candidate>, v: real, k: nat)
    requires x.score < v && y.score <= v
    requires var z := if y.score > x.score then y else x;
             TakesTurn(Sift(z, t), Joined(y, Equals(t, v), v), Turns([y] + t, v, k), v, k)
    ensures TakesTurn(Sift(x, [y] + t), Equals([y] + t, v), Turns([y] + t, v, k), v, k)
  {
    var z := if y.score > x.score then y else x;
    var left := if y.score > x.score then x else y;
    EqualsCons(y, t, v);
    LeaveLower(Sift(z, t), left, Joined(y, Equals(t, v), v), Turns([y] + t, v, k), v, k);
    SiftUnfold(x, y, t);
  }

  /** Something below `v` is carried: it hands over to the first candidate of score `v` or above. */
  lemma {:induction false} SiftLow(x: Candidate, s: seq<Candidate>, v: real, k: nat)
    requires x.score < v && Turns(s, v, k) != []
    ensures TakesTurn(Sift(x, s), Equals(s, v), Turns(s, v, k), v, k)
    decreases |s|
  {
    var y, t := s[0], s[1..];
    assert s == [y] + t;
    TurnsCons(y, t, v, k);
    if y.score > v {
      TurnsCons(x, s, v, k);
      SiftMeets(x, y, t, v, k);
    } else {
      if y.score == v {
        SiftLevel(y, t, v, k);
      } else {
        SiftLow(if y.score > x.score then y else x, t, v, k);
      }
      SiftHandsOver(x, y, t, v, k);
    }
  }

  /** What sifting `x` through candidates of which none is above `v` leaves. */
  ghost predicate TakesFirst(r: Sifted, x: Candidate, group: seq<Candidate>, v: real) {
    && r.best.score <= v && NoneAbove(r.rest, v)
    && Joined(r.best, Equals(r.rest, v), v) == Joined(x, group, v)
    && (x.score == v ==> r.best == x && Equals(r.rest, v) == group)
  }

  /** The better of `x` and `y` was carried on. */
  lemma LeaveTop(r: Sifted, x: Candidate, y: Candidate, group: seq<Candidate>, v: real)
    requires x.score <= v && y.score <= v
    requires TakesFirst(r, if y.score > x.score then y else x, group, v)
    ensures TakesFirst(Sifted(r.best, [if y.score > x.score then x else y] + r.rest), x, Joined(y, group, v), v)
  {
    EqualsCons(if y.score > x.score then x else y, r.rest, v);
  }

  lemma {:induction false} SiftTop(x: Candidate, s: seq<Candidate>, v: real)
    requires x.score <= v && NoneAbove(s, v)
    ensures TakesFirst(Sift(x, s), x, Equals(s, v), v)
    decreases |s|
  {
    if s != [] {
      var y, t := s[0], s[1..];
      assert s == [y] + t;
      EqualsCons(y, t, v);
      SiftTop(if y.score > x.score then y else x, t, v);
      LeaveTop(Sift(if y.score > x.score then y else x, t), x, y, Equals(t, v), v);
      SiftUnfold(x, y, t);
    }
  }

  ghost predicate NoneAbove(s: seq<Candidate>, v: real) {
    forall i :: 0 <= i < |s| ==> s[i].score <= v
  }

  lemma {:induction false} TurnsIfAbove(s: seq<Candidate>, v: real, k: nat)
    ensures Turns(s, v, k) == [] <==> NoneAbove(s, v)
  {
    if s != [] {
      TurnsIfAbove(s[1..], v, if s[0].score == v then k + 1 else k);
    }
  }

  lemma {:induction false} TurnsBound(s: seq<Candidate>, v: real, k: nat)
    ensures forall i :: 0 <= i < |Turns(s, v, k)| ==> k <= Turns(s, v, k)[i] <= k + |Equals(s, v)|
    ensures forall i, j :: 0 <= i < j < |Turns(s, v, k)| ==> Turns(s, v, k)[i] <= Turns(s, v, k)[j]
  {
    if s != [] {
      assert s == [s[0]] + s[1..];
      EqualsCons(s[0], s[1..], v);
      TurnsBound(s[1..], v, if s[0].score == v then k + 1 else k);
    }
  }

  ghost predicate Bounded(ms: seq<nat>, n: nat) {
    forall i :: 0 <= i < |ms| ==> ms[i] <= n
  }

  function TurnedAll<T>(g: seq<T>, ms: seq<nat>): (r: seq<T>)
    requires Bounded(ms, |g|)
    ensures |r| == |g|
  {
    if ms == [] then g else Turned(TurnedAll(g, ms[..|ms| - 1]), ms[|ms| - 1])
  }

  lemma {:induction false} TurnedAllFront<T>(g: seq<T>, ms: seq<nat>)
    requires ms != [] && Bounded(ms, |g|)
    ensures TurnedAll(g, ms) == TurnedAll(Turned(g, ms[0]), ms[1..])
  {
    var init := ms[..|ms| - 1];
    if |ms| == 1 {
      assert init == [] && TurnedAll(g, init) == g;
    } else {
      TurnedAllFront(g, init);
      assert ms[1..][..|ms| - 2] == init[1..];
    }
  }

  /** Sorting turns the candidates of each score by the candidates above it, one after the other. */
  lemma {:induction false} SortTurns(s: seq<Candidate>, v: real)
    ensures Bounded(Turns(s, v, 0), |Equals(s, v)|)
    ensures Equals(SelectionSort(s), v) == TurnedAll(Equals(s, v), Turns(s, v, 0))
    decreases |s|
  {
    TurnsBound(s, v, 0);
    if s != [] {
      var x, t := s[0], s[1..];
      assert s == [x] + t;
      var r := Sift(x, t);
      SortTurns(r.rest, v);
      EqualsCons(r.best, SelectionSort(r.rest), v);
      EqualsCons(x, t, v);
      TurnsIfAbove(s, v, 0);
      if NoneAbove(s, v) {
        assert NoneAbove(t, v) by { assert forall i :: 0 <= i < |t| ==> t[i] == s[i + 1]; }
        SiftTop(x, t, v);
        TurnsIfAbove(r.rest, v, 0);
      } else {
        FirstTurn(x, t, v);
        TurnedAllFront(Equals(s, v), Turns(s, v, 0));
      }
    }
  }

  lemma {:induction false} FirstTurn(x: Candidate, t: seq<Candidate>, v: real)
    requires Turns([x] + t, v, 0) != []
    ensures TakesTurn(Sift(x, t), Equals([x] + t, v), Turns([x] + t, v, 0), v, 0)
  {
    EqualsCons(x, t, v);
    TurnsCons(x, t, v, 0);
    if x.score > v {
      SiftHigh(x, t, v, 0);
    } else if x.score == v {
      SiftLevel(x, t, v, 0);
    } else {
      SiftLow(x, t, v, 0);
    }
  }

  // ---------- when the turns cancel ----------

  ghost predicate Distinct<T>(g: seq<T>) {
    forall i, j :: 0 <= i < j < |g| ==> g[i] != g[j]
  }

  ghost predicate Ascending(ms: seq<nat>) {
    forall i, j :: 0 <= i < j < |ms| ==> ms[i] <= ms[j]
  }

  /** The first `m` elements turned by `k` places. */
  function Spun<T>(g: seq<T>, m: nat, k: nat): (r: seq<T>)
    requires k <= m <= |g|
    ensures |r| == |g|
  {
    g[k..m] + g[..k] + g[m..]
  }

  lemma SpunTurned<T>(g: seq<T>, m: nat, k: nat)
    requires k < m <= |g|
    ensures Turned(Spun(g, m, k), m) == Spun(g, m, if k + 1 == m then 0 else k + 1)
  {
    var h, a, b, c := Spun(g, m, k), g[k + 1..m], g[..k], g[m..];
    assert h == [g[k]] + a + b + c;
    assert h[m..] == c && h[1..m] == a + b;
    assert g[..k + 1] == b + [g[k]];
    assert a + b + [g[k]] + c == a + (b + [g[k]]) + c;
  }

  lemma ModStep(c: nat, m: nat)
    requires 0 < m
    ensures (c + 1) % m == if c % m + 1 == m then 0 else c % m + 1
  {
    var q, r := c / m, c % m;
    assert c == m * q + r;
    if r + 1 == m {
      assert c + 1 == m * (q + 1);
      ModUnique(c + 1, m, q + 1, 0);
    } else {
      ModUnique(c + 1, m, q, r + 1);
    }
  }

  lemma ModUnique(c: nat, m: nat, q: nat, r: nat)
    requires r < m && c == m * q + r
    ensures c % m == r
  {
    var d := c / m - q;
    assert m * d == r - c % m;
  }

  lemma TurnedKeeps<T>(g: seq<T>, m: nat, b: nat)
    requires m <= b <= |g| && Distinct(g)
    ensures Turned(g, m)[b..] == g[b..] && Distinct(Turned(g, m))
  {
    assert forall i :: 0 <= i < |g| ==> Turned(g, m)[i] == if i + 1 < m then g[i + 1] else if i < m then g[0] else g[i];
  }

  lemma {:induction false} TurnedAllKeeps<T>(g: seq<T>, ms: seq<nat>, b: nat)
    requires Bounded(ms, b) && b <= |g| && Distinct(g)
    ensures Bounded(ms, |g|) && TurnedAll(g, ms)[b..] == g[b..] && Distinct(TurnedAll(g, ms))
  {
    if ms != [] {
      TurnedAllKeeps(g, ms[..|ms| - 1], b);
      TurnedKeeps(TurnedAll(g, ms[..|ms| - 1]), ms[|ms| - 1], b);
    }
  }

  function Times(ms: seq<nat>, m: nat): nat {
    multiset(ms)[m]
  }

  lemma TimesSnoc(init: seq<nat>, last: nat, m: nat)
    ensures Times(init + [last], m) == Times(init, m) + if m == last then 1 else 0
  {
  }

  lemma OneMoreTurn<T>(h: seq<T>, m: nat, c: nat)
    requires 0 < m <= |h|
    ensures Turned(Spun(h, m, c % m), m) == Spun(h, m, (c + 1) % m)
  {
    ModStep(c, m);
    SpunTurned(h, m, c % m);
  }

  lemma FirstOfGroup<T>(h: seq<T>, m: nat)
    requires 0 < m <= |h|
    ensures Turned(h, m) == Spun(h, m, 1 % m)
  {
    ModUnique(0, m, 0, 0);
    assert Spun(h, m, 0) == h;
    OneMoreTurn(h, m, 0);
  }

  /** `lo` is `ms` without its `c` copies of the last and largest element. */
  ghost predicate Below(lo: seq<nat>, ms: seq<nat>, c: nat)
    requires ms != []
  {
    var m := ms[|ms| - 1];
    && |lo| < |ms| && Ascending(lo) && (forall i :: 0 <= i < |lo| ==> lo[i] < m)
    && Times(lo, m) == 0 && Times(ms, m) == c && forall n: nat :: n != m ==> Times(lo, n) == Times(ms, n)
  }

  lemma BelowSnoc(lo: seq<nat>, init: seq<nat>, c: nat)
    requires init != [] && Below(lo, init, c)
    ensures Below(lo, init + [init[|init| - 1]], c + 1)
  {
    var m := init[|init| - 1];
    forall n: nat ensures Times(init + [m], n) == Times(init, n) + if n == m then 1 else 0 { TimesSnoc(init, m, n); }
  }

  lemma BelowFirst(init: seq<nat>, m: nat)
    requires Ascending(init) && forall i :: 0 <= i < |init| ==> init[i] < m
    ensures Below(init, init + [m], 1)
  {
    assert m !in init;
    forall n: nat ensures Times(init + [m], n) == Times(init, n) + if n == m then 1 else 0 { TimesSnoc(init, m, n); }
  }

  lemma {:induction false} TurnedAllSnoc<T>(g: seq<T>, ms: seq<nat>, m: nat)
    requires Bounded(ms, |g|) && m <= |g|
    ensures Bounded(ms + [m], |g|) && TurnedAll(g, ms + [m]) == Turned(TurnedAll(g, ms), m)
  {
    assert (ms + [m])[..|ms|] == ms;
  }

  /** `lo` leaves out the last and largest of `ms`, which turn by `c` places together. */
  ghost predicate SplitsOff<T>(g: seq<T>, ms: seq<nat>, lo: seq<nat>, c: nat) {
    && ms != [] && 0 < ms[|ms| - 1] && Bounded(ms, |g|) && Bounded(lo, |g|) && Below(lo, ms, c)
    && TurnedAll(g, ms) == Spun(TurnedAll(g, lo), ms[|ms| - 1], c % ms[|ms| - 1])
  }

  lemma SplitsOffFirst<T>(g: seq<T>, init: seq<nat>, m: nat)
    requires Ascending(init) && Bounded(init, |g|) && 0 < m <= |g| && forall i :: 0 <= i < |init| ==> init[i] < m
    ensures SplitsOff(g, init + [m], init, 1)
  {
    TurnedAllSnoc(g, init, m);
    BelowFirst(init, m);
    FirstOfGroup(TurnedAll(g, init), m);
  }

  lemma SplitsOffMore<T>(g: seq<T>, init: seq<nat>, lo: seq<nat>, c: nat)
    requires SplitsOff(g, init, lo, c)
    ensures SplitsOff(g, init + [init[|init| - 1]], lo, c + 1)
  {
    var m := init[|init| - 1];
    TurnedAllSnoc(g, init, m);
    BelowSnoc(lo, init, c);
    OneMoreTurn(TurnedAll(g, lo), m, c);
  }

  lemma SmallerBefore(init: seq<nat>, m: nat)
    requires Ascending(init + [m]) && (init == [] || init[|init| - 1] != m)
    ensures Ascending(init) && forall i :: 0 <= i < |init| ==> init[i] < m
  {
    var ms := init + [m];
    forall i, j | 0 <= i < j < |init| ensures init[i] <= init[j] { assert ms[i] <= ms[j]; }
    forall i | 0 <= i < |init| ensures init[i] < m {
      assert ms[i] <= ms[|init| - 1] && ms[|init| - 1] <= ms[|init|];
    }
  }

  lemma PrefixFacts(ms: seq<nat>, n: nat)
    requires ms != [] && Ascending(ms) && Bounded(ms, n)
    ensures Ascending(ms[..|ms| - 1]) && Bounded(ms[..|ms| - 1], n) && ms == ms[..|ms| - 1] + [ms[|ms| - 1]]
  {
  }

  /** All turns of the largest size taken together. */
  lemma {:induction false} LastSpun<T>(g: seq<T>, ms: seq<nat>) returns (lo: seq<nat>, c: nat)
    requires ms != [] && Ascending(ms) && Bounded(ms, |g|) && 0 < ms[|ms| - 1]
    ensures SplitsOff(g, ms, lo, c)
  {
    var init, m := ms[..|ms| - 1], ms[|ms| - 1];
    PrefixFacts(ms, |g|);
    if init != [] && init[|init| - 1] == m {
      var few;
      lo, few := LastSpun(g, init);
      SplitsOffMore(g, init, lo, few);
      c := few + 1;
    } else {
      lo, c := init, 1;
      SmallerBefore(init, m);
      SplitsOffFirst(g, init, m);
    }
  }

  ghost predicate Complete(ms: seq<nat>) {
    forall m: nat :: 0 < m ==> Times(ms, m) % m == 0
  }

  lemma CompleteBelow(lo: seq<nat>, ms: seq<nat>, c: nat)
    requires ms != [] && 0 < ms[|ms| - 1] && Below(lo, ms, c)
    ensures Complete(ms) <==> Complete(lo) && c % ms[|ms| - 1] == 0
  {
    var m := ms[|ms| - 1];
    assert 0 % m == 0 && Times(ms, m) == c && Times(lo, m) == 0;
    forall n: nat | n != m ensures Times(lo, n) == Times(ms, n) {}
  }

  lemma CompleteZero(init: seq<nat>)
    ensures Complete(init + [0]) <==> Complete(init)
  {
    forall m: nat | 0 < m ensures Times(init + [0], m) == Times(init, m) { TimesSnoc(init, 0, m); }
  }

  /** A group that is not turned by whole rounds leaves its last element elsewhere. */
  lemma SpunMoves<T>(g: seq<T>, h: seq<T>, m: nat, k: nat)
    requires 0 < m <= |g| == |h| && k < m && Distinct(h) && h[m - 1] == g[m - 1]
    ensures k == 0 ==> Spun(h, m, k) == h
    ensures k != 0 ==> Spun(h, m, k) != g
  {
    if k == 0 {
      assert Spun(h, m, 0) == h;
    } else {
      assert Spun(h, m, k)[m - 1] == h[k - 1];
    }
  }

  /** Ascending turns restore the order exactly if those of every size make whole rounds. */
  lemma {:induction false} TurnsCancel<T>(g: seq<T>, ms: seq<nat>)
    requires Distinct(g) && Ascending(ms) && Bounded(ms, |g|)
    ensures TurnedAll(g, ms) == g <==> Complete(ms)
    decreases |ms|
  {
    if ms == [] {
      assert forall m: nat :: 0 < m ==> Times(ms, m) == 0 && 0 % m == 0;
    } else {
      var init, m := ms[..|ms| - 1], ms[|ms| - 1];
      assert ms == init + [m];
      if m == 0 {
        CompleteZero(init);
        TurnsCancel(g, init);
      } else {
        var lo, c := LastSpun(g, ms);
        TurnsCancel(g, lo);
        CompleteBelow(lo, ms, c);
        TurnedAllKeeps(g, lo, m - 1);
        var h := TurnedAll(g, lo);
        assert h[m - 1] == h[m - 1..][0] == g[m - 1..][0];
        SpunMoves(g, h, m, c % m);
      }
    }
  }

  // ---------- counting overtakers ----------

  lemma {:induction false} TurnsSnoc(s: seq<Candidate>, y: Candidate, v: real, k: nat)
    ensures Turns(s + [y], v, k) == Turns(s, v, k) + if y.score > v then [k + |Equals(s, v)|] else []
  {
    if s == [] {
      assert s + [y] == [y] && [y][1..] == [];
    } else {
      assert s == [s[0]] + s[1..] && (s + [y])[1..] == s[1..] + [y];
      EqualsCons(s[0], s[1..], v);
      TurnsSnoc(s[1..], y, v, if s[0].score == v then k + 1 else k);
    }
  }

  lemma {:induction false} OvertakersSnoc(s: seq<Candidate>, y: Candidate, v: real, m: nat)
    ensures |Overtakers(s + [y], v, m)| == |Overtakers(s, v, m)| + if y.score > v && |Equals(s, v)| == m then 1 else 0
  {
    var all := s + [y];
    var more: set<nat> := if y.score > v && |Equals(s, v)| == m then {|s|} else {};
    forall i: nat | i <= |s| ensures all[..i] == s[..i] {}
    assert Overtakers(all, v, m) == Overtakers(s, v, m) + more;
  }

  lemma {:induction false} TimesAfter(s: seq<Candidate>, y: Candidate, v: real, m: nat)
    ensures Times(Turns(s + [y], v, 0), m) ==
            Times(Turns(s, v, 0), m) + if y.score > v && |Equals(s, v)| == m then 1 else 0
  {
    TurnsSnoc(s, y, v, 0);
    if y.score > v {
      TimesSnoc(Turns(s, v, 0), |Equals(s, v)|, m);
    } else {
      assert Turns(s + [y], v, 0) == Turns(s, v, 0);
    }
  }

  lemma {:induction false} OvertakersCounted(s: seq<Candidate>, v: real, m: nat)
    ensures |Overtakers(s, v, m)| == Times(Turns(s, v, 0), m)
  {
    if s != [] {
      var init, y := s[..|s| - 1], s[|s| - 1];
      assert s == init + [y];
      OvertakersCounted(init, v, m);
      OvertakersSnoc(init, y, v, m);
      TimesAfter(init, y, v, m);
    }
  }

  lemma {:induction false} EqualsDistinct(s: seq<Candidate>, v: real)
    requires Distinct(s)
    ensures Distinct(Equals(s, v)) && forall i :: 0 <= i < |Equals(s, v)| ==> Equals(s, v)[i] in s
  {
    if s != [] {
      var init, y := s[..|s| - 1], s[|s| - 1];
      assert s == init + [y];
      EqualsDistinct(init, v);
    }
  }

  lemma {:induction false} WholeIsComplete(s: seq<Candidate>, v: real)
    ensures WholeRoundsAt(s, v) <==> Complete(Turns(s, v, 0))
  {
    forall m: nat ensures |Overtakers(s, v, m)| == Times(Turns(s, v, 0), m) {
      OvertakersCounted(s, v, m);
    }
  }

  lemma {:induction false} TiesAfterSort(s: seq<Candidate>, v: real)
    ensures Bounded(Turns(s, v, 0), |Equals(s, v)|)
    ensures Equals(Exchanged(false, s, 0), v) == TurnedAll(Equals(s, v), Turns(s, v, 0))
  {
    SortIsSelection(s, 0);
    assert s[0..] == s && s[..0] + SelectionSort(s) == SelectionSort(s);
    SortTurns(s, v);
  }

  lemma {:induction false} StableAt(s: seq<Candidate>, v: real)
    requires Distinct(s)
    ensures Equals(Exchanged(false, s, 0), v) == Equals(s, v) <==> WholeRoundsAt(s, v)
  {
    TiesAfterSort(s, v);
    TurnsBound(s, v, 0);
    EqualsDistinct(s, v);
    TurnsCancel(Equals(s, v), Turns(s, v, 0));
    WholeIsComplete(s, v);
  }

  /** The sort keeps equal scores in order exactly if, for every score `v` and every m > 0, the
      number of candidates above `v` that stand behind exactly m candidates of score `v` is a
      multiple of m. */
  lemma {:induction false} StableIffWholeRounds(s: seq<Candidate>)
    requires Distinct(s)
    ensures KeepsTies(s, Exchanged(false, s, 0)) <==> WholeRounds(s)
  {
    forall v: real ensures Equals(Exchanged(false, s, 0), v) == Equals(s, v) <==> WholeRoundsAt(s, v) {
      StableAt(s, v);
    }
  }

  /** The merged list keeps the incoming order of candidates with equal blended scores exactly
      under that condition on the blended list; without LLM scores it always does. */
  lemma MergeStableIff(s: seq<Candidate>, llm: map<string, real>)
    requires Distinct(Modes(s))
    ensures |llm| != 0 ==> (KeepsTies(BlendedAll(s, llm), Merged(s, llm)) <==> WholeRounds(BlendedAll(s, llm)))
    ensures |llm| == 0 ==> Merged(s, llm) == s
  {
    var blended := BlendedAll(s, llm);
    forall i, j | 0 <= i < j < |blended| ensures blended[i] != blended[j] {
      assert Modes(s)[i] != Modes(s)[j];
    }
    if s != [] && |llm| != 0 {
      StableIffWholeRounds(blended);
    } else if |llm| != 0 {
      assert blended == [] && Exchanged(false, blended, 0) == [];
      StableIffWholeRounds(blended);
    }
  }
}
