/** Failure propagation in a workflow DAG: a breadth-first skip over dependents, applied to
    the stored node statuses, possibly many times during a run.
 */
module DagFailure {

  datatype Node = Node(id: string, dependsOn: seq<string>)

  type Plan = seq<Node>

  datatype Phase = Unset | Pending | Running | Completed | Failed | Skipped

  /** A skip names the node whose trouble reached this one. */
  datatype Reason = NoReason | Reported(text: string) | Upstream(node: string, text: string)

  datatype NodeStatus = NodeStatus(nodeId: string, phase: Phase, dependencies: seq<string>, output: string,
                                   startedAtNs: int, completedAtNs: int, error: Reason)

  type Statuses = map<string, NodeStatus>

  // ---------- the dependency graph ----------

  function Ids(plan: Plan): set<string> {
    set n | n in plan :: n.id
  }

  /** `b` depends directly on `a`. */
  ghost predicate Edge(plan: Plan, a: string, b: string) {
    exists n :: n in plan && n.id == b && a in n.dependsOn
  }

  function Occurrences(deps: seq<string>, a: string, id: string): seq<string> {
    if deps == [] then []
    else Occurrences(deps[..|deps| - 1], a, id) + if deps[|deps| - 1] == a then [id] else []
  }

  /** The dependents of `a`, in plan order. */
  function Dependents(plan: Plan, a: string): seq<string> {
    if plan == [] then []
    else
      var n := plan[|plan| - 1];
      Dependents(plan[..|plan| - 1], a) + Occurrences(n.dependsOn, a, n.id)
  }

  lemma {:induction false} OccurrencesExact(deps: seq<string>, a: string, id: string)
    ensures forall x :: x in Occurrences(deps, a, id) <==> x == id && a in deps
  {
    if deps != [] {
      assert deps == deps[..|deps| - 1] + [deps[|deps| - 1]];
      OccurrencesExact(deps[..|deps| - 1], a, id);
    }
  }

  lemma {:induction false} DependentsExact(plan: Plan, a: string)
    ensures forall b :: b in Dependents(plan, a) <==> Edge(plan, a, b)
  {
    if plan != [] {
      var init, n := plan[..|plan| - 1], plan[|plan| - 1];
      assert plan == init + [n];
      DependentsExact(init, a);
      OccurrencesExact(n.dependsOn, a, n.id);
      forall b ensures Edge(plan, a, b) <==> Edge(init, a, b) || (b == n.id && a in n.dependsOn) {}
    }
  }

  lemma {:induction false} OccurrencesStep(front: seq<string>, deps: seq<string>, j: nat, a: string, id: string)
    requires j < |deps|
    ensures front + Occurrences(deps[..j + 1], a, id) ==
            (front + Occurrences(deps[..j], a, id)) + if deps[j] == a then [id] else []
  {
    assert deps[..j + 1][..j] == deps[..j];
  }

  method IndexNode(index: map<string, seq<string>>, node: Node) returns (r: map<string, seq<string>>)
    ensures forall a :: Indexed(r, a) == Indexed(index, a) + Occurrences(node.dependsOn, a, node.id)
  {
    r := index;
    for j := 0 to |node.dependsOn|
      invariant forall a :: Indexed(r, a) == Indexed(index, a) + Occurrences(node.dependsOn[..j], a, node.id)
    {
      var dep := node.dependsOn[j];
      ghost var before := r;
      r := r[dep := Indexed(r, dep) + [node.id]];
      forall a
        ensures Indexed(r, a) == Indexed(index, a) + Occurrences(node.dependsOn[..j + 1], a, node.id)
      {
        OccurrencesStep(Indexed(index, a), node.dependsOn, j, a, node.id);
        assert a != dep ==> Indexed(r, a) == Indexed(before, a) == Indexed(before, a) + [];
      }
    }
    assert node.dependsOn[..|node.dependsOn|] == node.dependsOn;
  }

  /** The dependents index, filled node by node. */
  method BuildDependents(plan: Plan) returns (index: map<string, seq<string>>)
    ensures forall a :: Indexed(index, a) == Dependents(plan, a)
  {
    index := map[];
    for i := 0 to |plan|
      invariant forall a :: Indexed(index, a) == Dependents(plan[..i], a)
    {
      assert plan[..i + 1][..i] == plan[..i];
      index := IndexNode(index, plan[i]);
    }
    assert plan[..|plan|] == plan;
  }

  function Indexed(index: map<string, seq<string>>, a: string): seq<string> {
    if a in index then index[a] else []
  }

  // ---------- breadth-first skip ----------

  /** `order` lists everything ever enqueued, `order[head..]` is the queue, and `via` holds the
      skipped nodes with the node each was reached from. */
  datatype Search = Search(order: seq<string>, head: nat, via: map<string, string>)

  function Visit(s: Search, failed: string, current: string, deps: seq<string>): Search {
    if deps == [] then s
    else
      var dep := deps[|deps| - 1];
      var before := Visit(s, failed, current, deps[..|deps| - 1]);
      if dep in before.via || dep == failed then before
      else before.(order := before.order + [dep], via := before.via[dep := current])
  }

  function Start(failed: string): Search {
    Search([failed], 0, map[])
  }

  /** Facts about a search that is part-way through. */
  ghost predicate Sound(plan: Plan, failed: string, s: Search) {
    s.head <= |s.order| && SoundlyMet(plan, failed, s.order, s.via)
  }

  ghost predicate SoundlyMet(plan: Plan, failed: string, order: seq<string>, via: map<string, string>) {
    && failed !in via
    && (forall i, j :: 0 <= i < j < |order| ==> order[i] != order[j])
    && (forall id :: id in order <==> id == failed || id in via)
    && (forall id {:trigger via[id]} :: id in via ==>
          Edge(plan, via[id], id) && (via[id] == failed || via[id] in via) && Reaches(plan, failed, id))
  }

  /** Everything taken from the queue has its dependents in. */
  ghost predicate Explored(plan: Plan, failed: string, s: Search) {
    forall i, b :: 0 <= i < s.head <= |s.order| && Edge(plan, s.order[i], b) ==> b == failed || b in s.via
  }

  /** A nonempty walk along dependency edges. */
  ghost predicate IsWalk(plan: Plan, walk: seq<string>) {
    2 <= |walk| && forall i :: 0 <= i < |walk| - 1 ==> Edge(plan, walk[i], walk[i + 1])
  }

  ghost predicate Reaches(plan: Plan, a: string, b: string) {
    exists walk :: IsWalk(plan, walk) && walk[0] == a && walk[|walk| - 1] == b
  }

  lemma ReachesOneMore(plan: Plan, a: string, b: string, c: string)
    requires a == b || Reaches(plan, a, b)
    requires Edge(plan, b, c)
    ensures Reaches(plan, a, c)
  {
    if a == b {
      assert IsWalk(plan, [a, c]);
    } else {
      var walk :| IsWalk(plan, walk) && walk[0] == a && walk[|walk| - 1] == b;
      var longer := walk + [c];
      forall i | 0 <= i < |longer| - 1 ensures Edge(plan, longer[i], longer[i + 1]) {
        if i == |walk| - 1 {
          assert longer[i] == b;
        } else {
          assert longer[i] == walk[i] && longer[i + 1] == walk[i + 1];
        }
      }
      assert IsWalk(plan, longer);
    }
  }

  /** Enqueueing one new dependent of an enqueued node. */
  lemma EnqueueSound(plan: Plan, failed: string, s: Search, current: string, dep: string)
    requires Sound(plan, failed, s) && current in s.order && Edge(plan, current, dep)
    requires dep !in s.via && dep != failed
    ensures Sound(plan, failed, s.(order := s.order + [dep], via := s.via[dep := current]))
  {
    ReachesOneMore(plan, failed, current, dep);
    var r := s.(order := s.order + [dep], via := s.via[dep := current]);
    forall id ensures id in r.order <==> id == failed || id in r.via {}
  }

  /** `r` is `s` after visiting `deps`: nothing taken back, all of them met, nothing else new. */
  ghost predicate Visited(failed: string, s: Search, deps: seq<string>, r: Search) {
    && r.head == s.head && s.via.Keys <= r.via.Keys && s.order <= r.order
    && (r.via.Keys == s.via.Keys ==> r.order == s.order)
    && (forall b :: b in deps ==> b == failed || b in r.via)
    && (forall id :: id in r.via && id !in s.via ==> id in deps)
  }

  lemma {:induction false} VisitSound(plan: Plan, failed: string, s: Search, current: string, deps: seq<string>)
    requires Sound(plan, failed, s) && current in s.order
    requires forall b :: b in deps ==> Edge(plan, current, b)
    ensures var r := Visit(s, failed, current, deps); Sound(plan, failed, r) && Visited(failed, s, deps, r)
  {
    if deps != [] {
      var init, dep := deps[..|deps| - 1], deps[|deps| - 1];
      assert deps == init + [dep];
      VisitSound(plan, failed, s, current, init);
      var before, r := Visit(s, failed, current, init), Visit(s, failed, current, deps);
      if !(dep in before.via || dep == failed) {
        EnqueueSound(plan, failed, before, current, dep);
      }
    }
  }

  lemma EdgeInPlan(plan: Plan, a: string, b: string)
    requires Edge(plan, a, b)
    ensures b in Ids(plan)
  {
  }

  /** What one round of the queue loop does. */
  function Round(plan: Plan, failed: string, s: Search): Search
    requires s.head < |s.order|
  {
    var current := s.order[s.head];
    Visit(s.(head := s.head + 1), failed, current, Dependents(plan, current))
  }

  lemma TakeSound(plan: Plan, failed: string, s: Search)
    requires Sound(plan, failed, s) && s.head < |s.order|
    ensures Sound(plan, failed, s.(head := s.head + 1)) && s.order[s.head] in s.order
  {
  }

  lemma {:induction false} RoundIsVisit(plan: Plan, failed: string, s: Search)
    requires s.head < |s.order|
    ensures var current := s.order[s.head];
            Round(plan, failed, s) == Visit(s.(head := s.head + 1), failed, current, Dependents(plan, current))
  {
  }

  lemma {:induction false} VisitAll(plan: Plan, failed: string, s: Search, current: string)
    requires Sound(plan, failed, s) && current in s.order
    ensures var deps := Dependents(plan, current);
            var r := Visit(s, failed, current, deps);
            Sound(plan, failed, r) && Visited(failed, s, deps, r)
  {
    var deps := Dependents(plan, current);
    forall b | b in deps ensures Edge(plan, current, b) { DependentsExact(plan, current); }
    VisitSound(plan, failed, s, current, deps);
  }

  lemma {:induction false} RoundVisits(plan: Plan, failed: string, s: Search)
    requires Sound(plan, failed, s) && s.head < |s.order|
    ensures var r, deps := Round(plan, failed, s), Dependents(plan, s.order[s.head]);
            Sound(plan, failed, r) && Visited(failed, s.(head := s.head + 1), deps, r)
  {
    var taken, current := s.(head := s.head + 1), s.order[s.head];
    TakeSound(plan, failed, s);
    VisitAll(plan, failed, taken, current);
    RoundIsVisit(plan, failed, s);
  }

  lemma {:induction false} DependentsInPlan(plan: Plan, a: string)
    ensures forall b :: b in Dependents(plan, a) ==> b in Ids(plan)
  {
    DependentsExact(plan, a);
    forall b | b in Dependents(plan, a) ensures b in Ids(plan) { EdgeInPlan(plan, a, b); }
  }

  lemma {:induction false} RoundExplores(plan: Plan, failed: string, s: Search, r: Search)
    requires Explored(plan, failed, s) && s.head < |s.order| && s.head <= |s.order|
    requires r.head == s.head + 1 && s.order <= r.order && s.via.Keys <= r.via.Keys
    requires forall b :: b in Dependents(plan, s.order[s.head]) ==> b == failed || b in r.via
    ensures Explored(plan, failed, r)
  {
    DependentsExact(plan, s.order[s.head]);
    forall i, b | 0 <= i < r.head && Edge(plan, r.order[i], b) ensures b == failed || b in r.via {
      assert r.order[i] == s.order[i];
    }
  }

  lemma FewerLeft(ids: set<string>, before: set<string>, after: set<string>)
    requires before <= after && before != after && forall id :: id in after && id !in before ==> id in ids
    ensures ids - after < ids - before
  {
    var id :| id in after && id !in before;
    assert id in ids - before && id !in ids - after;
  }

  lemma RoundSound(plan: Plan, failed: string, s: Search)
    requires Sound(plan, failed, s) && Explored(plan, failed, s) && s.head < |s.order|
    ensures var r := Round(plan, failed, s);
            && Sound(plan, failed, r) && Explored(plan, failed, r) && r.head == s.head + 1 && s.order <= r.order
            && s.via.Keys <= r.via.Keys
            && (Ids(plan) - r.via.Keys < Ids(plan) - s.via.Keys || (r.via.Keys == s.via.Keys && r.order == s.order))
  {
    RoundVisits(plan, failed, s);
    var r := Round(plan, failed, s);
    RoundExplores(plan, failed, s, r);
    if r.via.Keys != s.via.Keys {
      DependentsInPlan(plan, s.order[s.head]);
      FewerLeft(Ids(plan), s.via.Keys, r.via.Keys);
    }
  }

  ghost predicate InProgress(plan: Plan, failed: string, s: Search) {
    Sound(plan, failed, s) && Explored(plan, failed, s)
  }

  /** The search run to its end. */
  ghost function Finish(plan: Plan, failed: string, s: Search): (r: Search)
    requires InProgress(plan, failed, s)
    ensures InProgress(plan, failed, r) && r.head == |r.order|
    decreases Ids(plan) - s.via.Keys, |s.order| - s.head
  {
    if s.head == |s.order| then s
    else
      RoundSound(plan, failed, s);
      Finish(plan, failed, Round(plan, failed, s))
  }

  lemma StartRunning(plan: Plan, failed: string)
    ensures InProgress(plan, failed, Start(failed))
  {
  }

  /** The skipped nodes with the node each is blamed on. */
  ghost function Skips(plan: Plan, failed: string): map<string, string> {
    StartRunning(plan, failed);
    Finish(plan, failed, Start(failed)).via
  }

  lemma {:induction false} WalkStaysInside(plan: Plan, inside: set<string>, walk: seq<string>)
    requires IsWalk(plan, walk) && walk[0] in inside
    requires forall a, b :: a in inside && Edge(plan, a, b) ==> b in inside
    ensures walk[|walk| - 1] in inside
  {
    if |walk| > 2 {
      var init := walk[..|walk| - 1];
      forall i | 0 <= i < |init| - 1 ensures Edge(plan, init[i], init[i + 1]) {
        assert Edge(plan, walk[i], walk[i + 1]);
      }
      WalkStaysInside(plan, inside, init);
      assert Edge(plan, walk[|walk| - 2], walk[|walk| - 2 + 1]);
    } else {
      assert Edge(plan, walk[0], walk[0 + 1]);
    }
  }

  /** The search ends on every plan, cyclic ones included, and skips exactly the nodes reachable
      from the failed one through dependents, the failed node itself excepted; each skip is
      blamed on a direct dependency that is itself affected. */
  lemma SkipsExactlyReachable(plan: Plan, failed: string)
    ensures forall id :: id in Skips(plan, failed) <==> id != failed && Reaches(plan, failed, id)
    ensures forall id :: id in Skips(plan, failed) ==>
              var blamed := Skips(plan, failed)[id];
              Edge(plan, blamed, id) && (blamed == failed || blamed in Skips(plan, failed))
    ensures Skips(plan, failed).Keys <= Ids(plan)
  {
    StartRunning(plan, failed);
    var r := Finish(plan, failed, Start(failed));
    var affected := r.via.Keys + {failed};
    forall a, b | a in affected && Edge(plan, a, b) ensures b in affected {
      assert a in r.order;
      var i :| 0 <= i < |r.order| && r.order[i] == a;
    }
    forall id | id != failed && Reaches(plan, failed, id) ensures id in r.via {
      var walk :| IsWalk(plan, walk) && walk[0] == failed && walk[|walk| - 1] == id;
      WalkStaysInside(plan, affected, walk);
    }
    forall id | id in r.via ensures id in Ids(plan) {
      EdgeInPlan(plan, r.via[id], id);
    }
  }
}
