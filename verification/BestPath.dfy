/** Choosing the best path of a tree of thoughts: from every terminal or deepest node back to
    the root, keeping the path with the highest mean score.
 */
module BestPath {

  datatype Thought = Thought(id: string, parentId: string, depth: int, score: real, isTerminal: bool)

  type Index = map<string, Thought>

  /** The node index; a later node replaces an earlier one of the same id. */
  function IndexOf(nodes: seq<Thought>): Index {
    if nodes == [] then map[]
    else
      var last := nodes[|nodes| - 1];
      IndexOf(nodes[..|nodes| - 1])[last.id := last]
  }

  function MaxDepth(nodes: seq<Thought>): int {
    if nodes == [] then 0
    else
      var before := MaxDepth(nodes[..|nodes| - 1]);
      if nodes[|nodes| - 1].depth > before then nodes[|nodes| - 1].depth else before
  }

  predicate IsCandidate(nodes: seq<Thought>, n: Thought) {
    n.isTerminal || n.depth == MaxDepth(nodes)
  }

  /** `id` names a node; the empty id stands for no parent. */
  predicate Known(index: Index, id: string) {
    id != "" && id in index
  }

  function Mean(sum: real, n: nat): real
    requires n > 0
  {
    sum / n as real
  }

  /** The id `k` parent links above `id`; an unknown id stays where it is. */
  ghost function Climb(index: Index, id: string, k: nat): string
    decreases k
  {
    if k == 0 || !Known(index, id) then id else Climb(index, index[id].parentId, k - 1)
  }

  /** The walk from `id` towards the root comes to an unknown parent. On a cycle it never would. */
  ghost predicate Ends(index: Index, id: string) {
    exists k: nat :: !Known(index, Climb(index, id, k))
  }

  ghost function StepsWithin(index: Index, id: string, k: nat): nat
    requires !Known(index, Climb(index, id, k))
    decreases k
  {
    if !Known(index, id) then 0 else 1 + StepsWithin(index, index[id].parentId, k - 1)
  }

  lemma {:induction false} StepsSame(index: Index, id: string, j: nat, k: nat)
    requires !Known(index, Climb(index, id, j)) && !Known(index, Climb(index, id, k))
    ensures StepsWithin(index, id, j) == StepsWithin(index, id, k)
    decreases j
  {
    if Known(index, id) { StepsSame(index, index[id].parentId, j - 1, k - 1); }
  }

  /** How many known ids the walk from `id` visits. */
  ghost function Steps(index: Index, id: string): nat
    requires Ends(index, id)
  {
    var k: nat :| !Known(index, Climb(index, id, k));
    StepsWithin(index, id, k)
  }

  lemma StepsParent(index: Index, id: string)
    requires Known(index, id)
    ensures Ends(index, id) <==> Ends(index, index[id].parentId)
    ensures Ends(index, id) ==> Steps(index, id) == 1 + Steps(index, index[id].parentId)
  {
    var parent := index[id].parentId;
    if Ends(index, id) {
      var k: nat :| !Known(index, Climb(index, id, k));
      assert Climb(index, id, k) == Climb(index, parent, k - 1);
      forall i: nat, j: nat | !Known(index, Climb(index, id, i)) && !Known(index, Climb(index, parent, j))
        ensures StepsWithin(index, id, i) == 1 + StepsWithin(index, parent, j)
      {
        StepsSame(index, parent, i - 1, j);
      }
    }
    if Ends(index, parent) {
      var k: nat :| !Known(index, Climb(index, parent, k));
      assert Climb(index, id, k + 1) == Climb(index, parent, k);
    }
  }

  /** From the root end down to `current`, as far as parents are known. */
  ghost function Ancestors(index: Index, current: string): seq<string>
    requires Ends(index, current)
    decreases Steps(index, current)
  {
    if !Known(index, current) then []
    else
      StepsParent(index, current);
      Ancestors(index, index[current].parentId) + [current]
  }

  ghost function ScoreSum(index: Index, path: seq<string>): real {
    if path == [] then 0.0
    else
      var last := path[|path| - 1];
      ScoreSum(index, path[..|path| - 1]) + if last in index then index[last].score else 0.0
  }

  ghost function PathOf(index: Index, n: Thought): seq<string>
    requires Ends(index, n.parentId)
  {
    Ancestors(index, n.parentId) + [n.id]
  }

  /** Mean score over the path, the node's own score and its ancestors'. */
  ghost function MeanScore(index: Index, n: Thought): real
    requires Ends(index, n.parentId)
  {
    Mean(ScoreSum(index, Ancestors(index, n.parentId)) + n.score, |PathOf(index, n)|)
  }

  /** The walk ends from every candidate: exactly then the search as a whole does. */
  ghost predicate WalksEnd(nodes: seq<Thought>) {
    forall i :: 0 <= i < |nodes| && IsCandidate(nodes, nodes[i]) ==> Ends(IndexOf(nodes), nodes[i].parentId)
  }

  /** Node `i` is the first candidate with the highest mean among the first `n` nodes. */
  ghost predicate IsBest(nodes: seq<Thought>, n: nat, i: nat)
    requires WalksEnd(nodes) && i < n <= |nodes|
  {
    var index := IndexOf(nodes);
    && IsCandidate(nodes, nodes[i])
    && forall j :: 0 <= j < n && IsCandidate(nodes, nodes[j]) ==>
         && MeanScore(index, nodes[j]) <= MeanScore(index, nodes[i])
         && (j < i ==> MeanScore(index, nodes[j]) < MeanScore(index, nodes[i]))
  }

  /** No candidate among the first `n` nodes scores above -1. */
  ghost predicate NoneAbove(nodes: seq<Thought>, n: nat)
    requires WalksEnd(nodes) && n <= |nodes|
  {
    forall j :: 0 <= j < n && IsCandidate(nodes, nodes[j]) ==> MeanScore(IndexOf(nodes), nodes[j]) <= -1.0
  }

  method BuildIndex(nodes: seq<Thought>) returns (index: Index)
    ensures index == IndexOf(nodes)
  {
    index := map[];
    for i := 0 to |nodes|
      invariant index == IndexOf(nodes[..i])
    {
      assert nodes[..i + 1][..i] == nodes[..i];
      index := index[nodes[i].id := nodes[i]];
    }
    assert nodes[..|nodes|] == nodes;
  }

  method GetMaxDepth(nodes: seq<Thought>) returns (maxD: int)
    ensures maxD == MaxDepth(nodes)
  {
    maxD := 0;
    for i := 0 to |nodes|
      invariant maxD == MaxDepth(nodes[..i])
    {
      assert nodes[..i + 1][..i] == nodes[..i];
      if nodes[i].depth > maxD {
        maxD := nodes[i].depth;
      }
    }
    assert nodes[..|nodes|] == nodes;
  }

  lemma {:induction false} ScoreSumPush(index: Index, path: seq<string>, id: string)
    requires id in index
    ensures ScoreSum(index, path + [id]) == ScoreSum(index, path) + index[id].score
  {
    assert (path + [id])[..|path|] == path;
  }

  /** The walk from one node to the root, prepending as it goes. */
  method TraceBack(index: Index, n: Thought) returns (path: seq<string>, avg: real)
    requires Ends(index, n.parentId)
    ensures path == PathOf(index, n) && avg == MeanScore(index, n)
  {
    path := [n.id];
    var cumScore := n.score;
    var current := n.parentId;
    ghost var all := Ancestors(index, n.parentId);
    while current != "" && current in index
      invariant Ends(index, current)
      invariant all + [n.id] == Ancestors(index, current) + path
      invariant cumScore + ScoreSum(index, Ancestors(index, current)) == ScoreSum(index, all) + n.score
      decreases Steps(index, current)
    {
      var parent := index[current];
      StepsParent(index, current);
      ghost var above := Ancestors(index, parent.parentId);
      ScoreSumPush(index, above, current);
      assert above + [current] + path == above + ([current] + path);
      path := [current] + path;
      cumScore := cumScore + parent.score;
      current := parent.parentId;
    }
    assert all + [n.id] == path;
    avg := Mean(cumScore, |path|);
  }

  method FindBestPath(nodes: seq<Thought>) returns (bestPath: seq<string>, confidence: real)
    requires WalksEnd(nodes)
    ensures nodes == [] ==> bestPath == [] && confidence == 0.0
    ensures nodes != [] && NoneAbove(nodes, |nodes|) ==> bestPath == ["root"] && confidence == 1.0
    ensures nodes != [] && !NoneAbove(nodes, |nodes|) ==>
              exists i :: 0 <= i < |nodes| && IsBest(nodes, |nodes|, i)
                && bestPath == PathOf(IndexOf(nodes), nodes[i])
                && confidence == var s := MeanScore(IndexOf(nodes), nodes[i]); if s < 1.0 then s else 1.0
  {
    if |nodes| == 0 {
      return [], 0.0;
    }
    var index := BuildIndex(nodes);
    bestPath := [];
    var bestScore := -1.0;
    ghost var best := 0;
    for i := 0 to |nodes|
      invariant bestPath == [] ==> bestScore == -1.0 && NoneAbove(nodes, i)
      invariant bestPath != [] ==>
                  && best < i && IsBest(nodes, i, best) && bestScore > -1.0
                  && bestPath == PathOf(index, nodes[best]) && bestScore == MeanScore(index, nodes[best])
    {
      var maxDepth := GetMaxDepth(nodes);
      if nodes[i].isTerminal || nodes[i].depth == maxDepth {
        var path, avg := TraceBack(index, nodes[i]);
        if avg > bestScore {
          bestScore := avg;
          bestPath := path;
          best := i;
        }
      }
    }
    if |bestPath| == 0 {
      bestPath := ["root"];
      bestScore := 1.0;
    }
    confidence := if bestScore < 1.0 then bestScore else 1.0;
  }

  // ---------- what the result is ----------

  lemma {:induction false} IndexExact(nodes: seq<Thought>)
    ensures forall id :: id in IndexOf(nodes) <==> exists i :: 0 <= i < |nodes| && nodes[i].id == id
    ensures forall id :: id in IndexOf(nodes) ==> IndexOf(nodes)[id] in nodes && IndexOf(nodes)[id].id == id
  {
    if nodes != [] {
      var init, last := nodes[..|nodes| - 1], nodes[|nodes| - 1];
      assert nodes == init + [last];
      IndexExact(init);
      forall id ensures id in IndexOf(nodes) <==> exists i :: 0 <= i < |nodes| && nodes[i].id == id {
        if id == last.id { assert nodes[|nodes| - 1].id == id; }
        if id in IndexOf(init) {
          var i :| 0 <= i < |init| && init[i].id == id;
          assert nodes[i].id == id;
        }
        if i :| 0 <= i < |nodes| && nodes[i].id == id {
          if i < |init| { assert init[i].id == id; }
        }
      }
    }
  }

  lemma {:induction false} MaxDepthExact(nodes: seq<Thought>)
    ensures forall n :: n in nodes ==> n.depth <= MaxDepth(nodes)
    ensures MaxDepth(nodes) == 0 || exists n :: n in nodes && n.depth == MaxDepth(nodes)
    ensures 0 <= MaxDepth(nodes)
  {
    if nodes != [] {
      assert nodes == nodes[..|nodes| - 1] + [nodes[|nodes| - 1]];
      MaxDepthExact(nodes[..|nodes| - 1]);
    }
  }

  /** Each node of the path is the recorded parent of the next. */
  ghost predicate Linked(index: Index, path: seq<string>) {
    && (forall i :: 0 <= i < |path| ==> path[i] in index && path[i] != "")
    && (forall i, j :: 0 <= i < |path| - 1 && j == i + 1 ==> index[path[j]].parentId == path[i])
  }

  lemma {:induction false} AncestorsLinked(index: Index, current: string)
    requires Ends(index, current)
    ensures var a := Ancestors(index, current);
            && Linked(index, a) && |a| == Steps(index, current)
            && (a != [] ==> a[|a| - 1] == current && !Known(index, index[a[0]].parentId))
            && (a == [] ==> !Known(index, current))
            && (forall i :: 0 <= i < |a| ==> Ends(index, a[i]) && Steps(index, a[i]) == i + 1)
    decreases Steps(index, current)
  {
    if Known(index, current) {
      StepsParent(index, current);
      AncestorsLinked(index, index[current].parentId);
    }
  }

  ghost predicate Distinct(path: seq<string>) {
    forall a, b :: 0 <= a < b < |path| ==> path[a] != path[b]
  }

  /** The path leads from a node without a known parent down to `to`. */
  ghost predicate LeadsTo(index: Index, path: seq<string>, to: string) {
    && Linked(index, path) && Distinct(path)
    && (path == [] ==> !Known(index, to))
    && (path != [] ==> path[|path| - 1] == to && !Known(index, index[path[0]].parentId))
  }

  /** No later node takes the place of node `i` in the index. */
  predicate KeepsItsId(nodes: seq<Thought>, i: nat)
    requires i < |nodes|
  {
    forall j :: i < j < |nodes| ==> nodes[j].id != nodes[i].id
  }

  lemma {:induction false} IndexKeeps(nodes: seq<Thought>, i: nat)
    requires i < |nodes|
    ensures nodes[i].id in IndexOf(nodes) && (KeepsItsId(nodes, i) ==> IndexOf(nodes)[nodes[i].id] == nodes[i])
  {
    if i < |nodes| - 1 {
      IndexKeeps(nodes[..|nodes| - 1], i);
      if KeepsItsId(nodes, i) { assert nodes[|nodes| - 1].id != nodes[i].id; }
    }
  }

  lemma {:induction false} AncestorsLeadTo(index: Index, current: string)
    requires Ends(index, current)
    ensures LeadsTo(index, Ancestors(index, current), current)
  {
    AncestorsLinked(index, current);
  }

  lemma DistinctPush(path: seq<string>, id: string)
    requires Distinct(path)
    ensures Distinct(path + [id]) <==> id !in path
  {
    var more := path + [id];
    assert forall a :: 0 <= a < |path| ==> more[a] == path[a];
    if a :| 0 <= a < |path| && path[a] == id { assert more[a] == more[|path|]; }
  }

  lemma {:induction false} WholePathLeads(nodes: seq<Thought>, i: nat)
    requires i < |nodes| && Ends(IndexOf(nodes), nodes[i].parentId) && KeepsItsId(nodes, i)
    ensures var index, n := IndexOf(nodes), nodes[i];
            Distinct(PathOf(index, n)) && (n.id != "" ==> LeadsTo(index, PathOf(index, n), n.id))
  {
    var index, n := IndexOf(nodes), nodes[i];
    IndexKeeps(nodes, i);
    if n.id == "" {
      AncestorsLeadTo(index, n.parentId);
      DistinctPush(Ancestors(index, n.parentId), n.id);
    } else {
      StepsParent(index, n.id);
      AncestorsLeadTo(index, n.id);
    }
  }

  /** Above any node stands a genuine chain of parent links from a node without a known parent
      down to the node's parent. The path as a whole repeats an id exactly if the chain already
      passes the node's own, which takes a later node of the same id; otherwise the chain
      includes the node. */
  lemma {:induction false} PathIsGenuine(nodes: seq<Thought>, i: nat)
    requires i < |nodes| && Ends(IndexOf(nodes), nodes[i].parentId)
    ensures var index, n, path := IndexOf(nodes), nodes[i], PathOf(IndexOf(nodes), nodes[i]);
            var above := path[..|path| - 1];
            && path[|path| - 1] == n.id && LeadsTo(index, above, n.parentId)
            && (Distinct(path) <==> n.id !in above)
            && (KeepsItsId(nodes, i) ==> Distinct(path) && (n.id != "" ==> LeadsTo(index, path, n.id)))
  {
    var index, n := IndexOf(nodes), nodes[i];
    var above := Ancestors(index, n.parentId);
    AncestorsLeadTo(index, n.parentId);
    assert PathOf(index, n)[..|above|] == above;
    DistinctPush(above, n.id);
    if KeepsItsId(nodes, i) { WholePathLeads(nodes, i); }
  }

  // ---------- when the search ends ----------

  /** The first `n` ids of the walk are known and different. */
  ghost predicate FreshWalk(index: Index, id: string, n: nat) {
    && (forall i: nat :: i < n ==> Known(index, Climb(index, id, i)))
    && (forall i: nat, j: nat :: i < j < n ==> Climb(index, id, i) != Climb(index, id, j))
  }

  ghost predicate MetWithin(index: Index, id: string, n: nat, x: string) {
    exists i: nat :: i < n && Climb(index, id, i) == x
  }

  lemma {:induction false} WalkIds(index: Index, id: string, n: nat) returns (seen: set<string>)
    requires FreshWalk(index, id, n)
    ensures |seen| == n && seen <= index.Keys && forall x :: x in seen ==> MetWithin(index, id, n, x)
  {
    if n == 0 {
      seen := {};
    } else {
      var before := WalkIds(index, id, n - 1);
      var last := Climb(index, id, n - 1);
      seen := before + {last};
      forall x | x in seen ensures MetWithin(index, id, n, x) {
        if x in before { assert MetWithin(index, id, n - 1, x); }
      }
      assert last !in before;
    }
  }

  lemma FreshWalkIsShort(index: Index, id: string, n: nat)
    requires FreshWalk(index, id, n)
    ensures n <= |index|
  {
    var seen := WalkIds(index, id, n);
    assert index.Keys == seen + (index.Keys - seen);
  }

  lemma {:induction false} ClimbOn(index: Index, id: string, k: nat)
    ensures Climb(index, id, k + 1) == if Known(index, Climb(index, id, k)) then index[Climb(index, id, k)].parentId
                                       else Climb(index, id, k)
    decreases k
  {
    if k > 0 && Known(index, id) { ClimbOn(index, index[id].parentId, k - 1); }
  }

  lemma {:induction false} StepsFall(index: Index, id: string, k: nat)
    requires Ends(index, id)
    ensures Ends(index, Climb(index, id, k))
    ensures Known(index, Climb(index, id, k)) ==> Steps(index, Climb(index, id, k)) == Steps(index, id) - k
    decreases k
  {
    if k > 0 {
      StepsFall(index, id, k - 1);
      ClimbOn(index, id, k - 1);
      var before := Climb(index, id, k - 1);
      if Known(index, before) { StepsParent(index, before); }
    }
  }

  /** The walk repeats itself: some known id is met again. */
  ghost predicate Repeats(index: Index, id: string) {
    exists i: nat, j: nat :: i < j && Known(index, Climb(index, id, i)) && Climb(index, id, i) == Climb(index, id, j)
  }

  /** A walk ends exactly if it never meets the same known id twice: parent cycles are the one
      thing that keeps the search from ending. */
  lemma EndsIffNoCycle(index: Index, id: string)
    ensures Ends(index, id) <==> !Repeats(index, id)
  {
    if Ends(index, id) && Repeats(index, id) {
      var i: nat, j: nat :| i < j && Known(index, Climb(index, id, i)) && Climb(index, id, i) == Climb(index, id, j);
      StepsFall(index, id, i);
      StepsFall(index, id, j);
      assert false;
    }
    if !Ends(index, id) && !Repeats(index, id) {
      FreshWalkIsShort(index, id, |index| + 1);
      assert false;
    }
  }

  lemma {:induction false} ShallowWalkEnds(index: Index, id: string, depth: nat)
    requires forall x :: x in index ==> index[x].depth >= 0
    requires forall x :: x in index && Known(index, index[x].parentId) ==>
               index[index[x].parentId].depth < index[x].depth
    requires Known(index, id) ==> index[id].depth <= depth
    ensures Ends(index, id)
    decreases depth
  {
    if !Known(index, id) {
      assert Climb(index, id, 0) == id;
    } else {
      var parent := index[id].parentId;
      if !Known(index, parent) {
        assert Climb(index, parent, 0) == parent;
      } else {
        ShallowWalkEnds(index, parent, depth - 1);
      }
      StepsParent(index, id);
    }
  }

  /** With non-negative depths and parents strictly above their children every walk ends. */
  lemma ShallowerParentsEnd(nodes: seq<Thought>)
    requires forall n :: n in nodes ==> n.depth >= 0
    requires forall a, b :: a in nodes && b in nodes && b.parentId == a.id ==> a.depth < b.depth
    ensures WalksEnd(nodes)
  {
    var index := IndexOf(nodes);
    IndexExact(nodes);
    forall i | 0 <= i < |nodes| ensures Ends(index, nodes[i].parentId) {
      var id := nodes[i].parentId;
      ShallowWalkEnds(index, id, if Known(index, id) then index[id].depth else 0);
    }
  }

  // ---------- non-negative trees ----------

  lemma {:induction false} SumNonNegative(index: Index, path: seq<string>)
    requires forall id :: id in index ==> index[id].score >= 0.0
    ensures ScoreSum(index, path) >= 0.0
  {
    if path != [] {
      SumNonNegative(index, path[..|path| - 1]);
    }
  }

  lemma MeanSign(sum: real, n: nat)
    requires n > 0 && sum >= 0.0
    ensures Mean(sum, n) >= 0.0
  {
  }

  lemma {:induction false} MeanNonNegative(nodes: seq<Thought>, i: nat)
    requires i < |nodes| && Ends(IndexOf(nodes), nodes[i].parentId)
    requires forall n :: n in nodes ==> n.score >= 0.0
    ensures MeanScore(IndexOf(nodes), nodes[i]) >= 0.0
  {
    var index, n := IndexOf(nodes), nodes[i];
    var above := Ancestors(index, n.parentId);
    assert ScoreSum(index, above) >= 0.0 by {
      IndexExact(nodes);
      SumNonNegative(index, above);
    }
    assert n in nodes && |PathOf(index, n)| == |above| + 1;
    MeanSign(ScoreSum(index, above) + n.score, |above| + 1);
  }

  /** With non-negative depths and scores the placeholder path is never returned for a non-empty
      tree: some node is a candidate and has a mean above -1. */
  lemma NonNegativeTreesHaveAPath(nodes: seq<Thought>)
    requires WalksEnd(nodes) && nodes != []
    requires forall n :: n in nodes ==> n.score >= 0.0 && n.depth >= 0
    ensures !NoneAbove(nodes, |nodes|)
  {
    MaxDepthExact(nodes);
    var n := nodes[0];
    assert n in nodes;
    if MaxDepth(nodes) != 0 {
      n :| n in nodes && n.depth == MaxDepth(nodes);
    }
    var i :| 0 <= i < |nodes| && nodes[i] == n;
    assert IsCandidate(nodes, nodes[i]);
    MeanNonNegative(nodes, i);
  }

  // ---------- candidates and means, spelled out ----------

  /** Candidates are the terminal nodes and the deepest ones, depths below zero not counting. */
  lemma CandidateIff(nodes: seq<Thought>, n: Thought)
    requires n in nodes
    ensures IsCandidate(nodes, n) <==> n.isTerminal || (0 <= n.depth && forall m :: m in nodes ==> m.depth <= n.depth)
  {
    MaxDepthExact(nodes);
  }

  /** `sums[i]` is what the first `i` nodes of the path score together. */
  ghost predicate RunningSums(index: Index, path: seq<string>, sums: seq<real>) {
    && |sums| == |path| + 1 && sums[0] == 0.0
    && forall i :: 0 <= i < |path| ==> path[i] in index && sums[i + 1] == sums[i] + index[path[i]].score
  }

  lemma {:induction false} SumsOf(index: Index, path: seq<string>) returns (sums: seq<real>)
    requires forall i :: 0 <= i < |path| ==> path[i] in index
    ensures RunningSums(index, path, sums) && sums[|path|] == ScoreSum(index, path)
  {
    sums := [0.0];
    if path != [] {
      var init, last := path[..|path| - 1], path[|path| - 1];
      sums := SumsOf(index, init);
      sums := sums + [sums[|init|] + index[last].score];
    }
  }

  /** The confidence in a path times its length is the sum of the scores on it: the node's own and those
      its ancestors are recorded with. */
  lemma MeanIsExact(index: Index, n: Thought) returns (sums: seq<real>)
    requires Ends(index, n.parentId)
    ensures var path := PathOf(index, n);
            && path != [] && path[|path| - 1] == n.id && RunningSums(index, path[..|path| - 1], sums)
            && MeanScore(index, n) * |path| as real == sums[|path| - 1] + n.score
  {
    var above := Ancestors(index, n.parentId);
    AncestorsKnown(index, n.parentId);
    sums := SumsOf(index, above);
    PathEnds(index, n);
    MeanTimesLength(index, n);
  }

  lemma {:induction false} PathEnds(index: Index, n: Thought)
    requires Ends(index, n.parentId)
    ensures var path := PathOf(index, n);
            path != [] && path[|path| - 1] == n.id && path[..|path| - 1] == Ancestors(index, n.parentId)
  {
  }

  lemma {:induction false} MeanTimesLength(index: Index, n: Thought)
    requires Ends(index, n.parentId)
    ensures MeanScore(index, n) * |PathOf(index, n)| as real ==
            ScoreSum(index, Ancestors(index, n.parentId)) + n.score
  {
    MeanTimes(ScoreSum(index, Ancestors(index, n.parentId)) + n.score, |PathOf(index, n)|);
  }

  lemma {:induction false} AncestorsKnown(index: Index, current: string)
    requires Ends(index, current)
    ensures forall i :: 0 <= i < |Ancestors(index, current)| ==> Ancestors(index, current)[i] in index
  {
    AncestorsLinked(index, current);
  }

  lemma MeanTimes(sum: real, n: nat)
    requires n > 0
    ensures Mean(sum, n) * n as real == sum
  {
  }
}
