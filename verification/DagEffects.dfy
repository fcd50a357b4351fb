/** What a failure report does, node by node and over walks in the plan alone: which statuses it
    stores, which counters and events go with them, and that blame follows shortest walks.
 */
module DagEffects {
  import opened DagFailure
  import opened DagReports
  import opened Wrappers

  // ---------- blame follows shortest walks ----------

  /** A walk of `n` edges from `a` to `b`. */
  ghost predicate InSteps(plan: Plan, a: string, b: string, n: nat) {
    if n == 0 then a == b
    else exists walk :: IsWalk(plan, walk) && |walk| == n + 1 && walk[0] == a && walk[n] == b
  }

  lemma OneStepMore(plan: Plan, a: string, b: string, c: string, n: nat)
    requires InSteps(plan, a, b, n) && Edge(plan, b, c)
    ensures InSteps(plan, a, c, n + 1)
  {
    if n == 0 {
      assert IsWalk(plan, [a, c]);
    } else {
      var walk :| IsWalk(plan, walk) && |walk| == n + 1 && walk[0] == a && walk[n] == b;
      var longer := walk + [c];
      forall i | 0 <= i < |longer| - 1 ensures Edge(plan, longer[i], longer[i + 1]) {
        assert i < n ==> Edge(plan, walk[i], walk[i + 1]);
      }
      assert IsWalk(plan, longer);
    }
  }

  lemma LastStep(plan: Plan, a: string, c: string, n: nat) returns (b: string)
    requires 0 < n && InSteps(plan, a, c, n)
    ensures InSteps(plan, a, b, n - 1) && Edge(plan, b, c)
  {
    var walk :| IsWalk(plan, walk) && |walk| == n + 1 && walk[0] == a && walk[n] == c;
    b := walk[n - 1];
    assert Edge(plan, walk[n - 1], walk[n - 1 + 1]);
    if n > 1 {
      var shorter := walk[..n];
      forall i | 0 <= i < |shorter| - 1 ensures Edge(plan, shorter[i], shorter[i + 1]) {
        assert Edge(plan, walk[i], walk[i + 1]);
      }
      assert IsWalk(plan, shorter);
    }
  }

  /** `b` was met, at a level not above `n`. */
  ghost predicate MetBy(order: seq<string>, levels: seq<nat>, b: string, n: nat) {
    exists k :: 0 <= k < |order| == |levels| && order[k] == b && levels[k] <= n
  }

  /** Position `i` was met from the dependents of a position one level below. */
  ghost predicate MetFrom(s: Search, levels: seq<nat>, i: nat, j: nat) {
    && j < i < |s.order| == |levels|
    && s.order[i] in s.via && s.via[s.order[i]] == s.order[j] && levels[i] == levels[j] + 1
  }

  ghost predicate WasMet(s: Search, levels: seq<nat>, i: nat) {
    exists j: nat :: MetFrom(s, levels, i, j)
  }

  /** Levels rise along the order, to at most one above position `at`. */
  ghost predicate Rising(levels: seq<nat>, at: nat) {
    && at < |levels| && levels[0] == 0
    && (forall i, j :: 0 <= i < j < |levels| ==> levels[i] <= levels[j])
    && (forall i :: 0 <= i < |levels| ==> levels[i] <= levels[at] + 1)
  }

  /** Every position is as many steps from the failed node as its level says. */
  ghost predicate Walked(plan: Plan, failed: string, s: Search, levels: seq<nat>) {
    && |levels| == |s.order| && s.order != [] && s.order[0] == failed && levels[0] == 0
    && (forall i :: 0 <= i < |levels| ==> InSteps(plan, failed, s.order[i], levels[i]))
    && (forall i: nat :: 0 < i < |levels| ==> WasMet(s, levels, i))
  }

  /** The dependents of the first `at` positions were met in time. */
  ghost predicate MetInTime(plan: Plan, order: seq<string>, levels: seq<nat>, at: nat) {
    && at <= |order| == |levels|
    && forall i, b :: 0 <= i < at && Edge(plan, order[i], b) ==> MetBy(order, levels, b, levels[i] + 1)
  }

  ghost predicate Levelled(plan: Plan, failed: string, s: Search, levels: seq<nat>, at: nat) {
    Rising(levels, at) && Walked(plan, failed, s, levels) && MetInTime(plan, s.order, levels, at)
  }

  lemma MetByMore(order: seq<string>, levels: seq<nat>, b: string, n: nat, id: string, level: nat)
    requires MetBy(order, levels, b, n)
    ensures MetBy(order + [id], levels + [level], b, n)
  {
    var k :| 0 <= k < |order| == |levels| && order[k] == b && levels[k] <= n;
    assert (order + [id])[k] == b && (levels + [level])[k] == levels[k];
  }

  lemma WalkedMore(plan: Plan, failed: string, s: Search, levels: seq<nat>, at: nat, dep: string)
    requires Walked(plan, failed, s, levels) && at < |levels| && Edge(plan, s.order[at], dep) && dep !in s.via
    ensures Walked(plan, failed, s.(order := s.order + [dep], via := s.via[dep := s.order[at]]),
                   levels + [levels[at] + 1])
  {
    var r, more := s.(order := s.order + [dep], via := s.via[dep := s.order[at]]), levels + [levels[at] + 1];
    OneStepMore(plan, failed, s.order[at], dep, levels[at]);
    forall i: nat | 0 < i < |more| ensures WasMet(r, more, i) {
      if i == |levels| {
        assert MetFrom(r, more, i, at);
      } else {
        assert WasMet(s, levels, i);
        var j: nat :| MetFrom(s, levels, i, j);
        assert MetFrom(r, more, i, j);
      }
    }
  }

  lemma EnqueueLevelled(plan: Plan, failed: string, s: Search, levels: seq<nat>, at: nat, dep: string)
    requires Levelled(plan, failed, s, levels, at) && Edge(plan, s.order[at], dep) && dep !in s.via
    ensures Levelled(plan, failed, s.(order := s.order + [dep], via := s.via[dep := s.order[at]]),
                     levels + [levels[at] + 1], at)
  {
    var order, more := s.order + [dep], levels + [levels[at] + 1];
    WalkedMore(plan, failed, s, levels, at, dep);
    forall i, b | 0 <= i < at && Edge(plan, order[i], b) ensures MetBy(order, more, b, more[i] + 1) {
      assert order[i] == s.order[i] && more[i] == levels[i];
      MetByMore(s.order, levels, b, levels[i] + 1, dep, levels[at] + 1);
    }
  }

  lemma {:induction false} VisitLevelled(plan: Plan, failed: string, s: Search, levels: seq<nat>, at: nat,
                                         deps: seq<string>)
    returns (more: seq<nat>)
    requires Levelled(plan, failed, s, levels, at)
    requires forall b :: b in deps ==> Edge(plan, s.order[at], b)
    ensures Levelled(plan, failed, Visit(s, failed, s.order[at], deps), more, at)
    ensures s.order <= Visit(s, failed, s.order[at], deps).order
  {
    more := levels;
    if deps != [] {
      var init, dep := deps[..|deps| - 1], deps[|deps| - 1];
      assert deps == init + [dep];
      more := VisitLevelled(plan, failed, s, levels, at, init);
      var before := Visit(s, failed, s.order[at], init);
      assert before.order[at] == s.order[at];
      if !(dep in before.via || dep == failed) {
        EnqueueLevelled(plan, failed, before, more, at, dep);
        more := more + [more[at] + 1];
      }
    }
  }

  /** A search between two rounds. */
  ghost predicate InLevels(plan: Plan, failed: string, s: Search, levels: seq<nat>) {
    && Walked(plan, failed, s, levels) && MetInTime(plan, s.order, levels, s.head)
    && (s.head < |s.order| ==> Rising(levels, s.head))
  }

  lemma {:induction false} AllInTime(plan: Plan, failed: string, s: Search, levels: seq<nat>, at: nat)
    requires Sound(plan, failed, s) && Levelled(plan, failed, s, levels, at)
    requires forall b :: b in Dependents(plan, s.order[at]) ==> b == failed || b in s.via
    ensures MetInTime(plan, s.order, levels, at + 1) && (at + 1 < |levels| ==> Rising(levels, at + 1))
  {
    DependentsExact(plan, s.order[at]);
    forall i, b | 0 <= i < at + 1 && Edge(plan, s.order[i], b) ensures MetBy(s.order, levels, b, levels[i] + 1) {
      if i == at {
        assert b in s.order;
        var k :| 0 <= k < |s.order| && s.order[k] == b;
        assert levels[k] <= levels[at] + 1;
      }
    }
  }

  lemma RoundLevelled(plan: Plan, failed: string, s: Search, levels: seq<nat>) returns (more: seq<nat>)
    requires InProgress(plan, failed, s) && s.head < |s.order| && InLevels(plan, failed, s, levels)
    ensures InLevels(plan, failed, Round(plan, failed, s), more)
  {
    var taken, current := s.(head := s.head + 1), s.order[s.head];
    var deps, r := Dependents(plan, current), Round(plan, failed, s);
    RoundVisits(plan, failed, s);
    RoundIsVisit(plan, failed, s);
    DependentsExact(plan, current);
    TakenLevelled(plan, failed, s, levels);
    more := VisitLevelled(plan, failed, taken, levels, s.head, deps);
    assert r.order[s.head] == current;
    AllInTime(plan, failed, r, more, s.head);
  }

  lemma TakenLevelled(plan: Plan, failed: string, s: Search, levels: seq<nat>)
    requires InLevels(plan, failed, s, levels) && s.head < |s.order|
    ensures Levelled(plan, failed, s.(head := s.head + 1), levels, s.head)
  {
    var taken := s.(head := s.head + 1);
    forall i: nat | 0 < i < |levels| ensures WasMet(taken, levels, i) {
      assert WasMet(s, levels, i);
      var j: nat :| MetFrom(s, levels, i, j);
      assert MetFrom(taken, levels, i, j);
    }
  }

  lemma {:induction false} FinishLevelled(plan: Plan, failed: string, s: Search, levels: seq<nat>)
    returns (more: seq<nat>)
    requires InProgress(plan, failed, s) && InLevels(plan, failed, s, levels)
    ensures InLevels(plan, failed, Finish(plan, failed, s), more)
    decreases Ids(plan) - s.via.Keys, |s.order| - s.head
  {
    more := levels;
    if s.head < |s.order| {
      RoundSound(plan, failed, s);
      more := RoundLevelled(plan, failed, s, levels);
      more := FinishLevelled(plan, failed, Round(plan, failed, s), more);
    }
  }

  lemma {:induction false} MetAtLeast(plan: Plan, failed: string, s: Search, levels: seq<nat>, id: string, m: nat)
    requires Walked(plan, failed, s, levels) && MetInTime(plan, s.order, levels, |s.order|)
    requires InSteps(plan, failed, id, m)
    ensures MetBy(s.order, levels, id, m)
    decreases m
  {
    if m == 0 {
      assert s.order[0] == id;
    } else {
      var b := LastStep(plan, failed, id, m);
      MetAtLeast(plan, failed, s, levels, b, m - 1);
      var k :| 0 <= k < |s.order| && s.order[k] == b && levels[k] <= m - 1;
      assert MetBy(s.order, levels, id, levels[k] + 1);
      var i :| 0 <= i < |s.order| && s.order[i] == id && levels[i] <= levels[k] + 1;
    }
  }

  /** `u` comes right before `id` on a shortest walk from the failed node. */
  ghost predicate BeforeOnShortest(plan: Plan, failed: string, u: string, id: string) {
    && Edge(plan, u, id)
    && exists n: nat :: InSteps(plan, failed, u, n) && forall m: nat :: InSteps(plan, failed, id, m) ==> n < m
  }

  /** The breadth-first search blames every skip on a node right before it on a shortest walk from the
      failed one. */
  lemma BlameIsNearest(plan: Plan, failed: string, id: string)
    requires id in Skips(plan, failed)
    ensures BeforeOnShortest(plan, failed, Skips(plan, failed)[id], id)
  {
    StartRunning(plan, failed);
    var s := Finish(plan, failed, Start(failed));
    var levels := FinishLevelled(plan, failed, Start(failed), [0]);
    assert id in s.order;
    var i :| 0 <= i < |s.order| && s.order[i] == id;
    assert WasMet(s, levels, i);
    var j: nat :| MetFrom(s, levels, i, j);
    forall m: nat | InSteps(plan, failed, id, m) ensures levels[j] < m {
      MetAtLeast(plan, failed, s, levels, id, m);
    }
    assert InSteps(plan, failed, s.order[j], levels[j]);
  }

  // ---------- the stored statuses ----------

  /** The node as it was stored, or an empty status. */
  function Before(stored: Statuses, id: string): NodeStatus {
    if id in stored then stored[id] else NodeStatus(id, Unset, [], "", 0, 0, NoReason)
  }

  /** The time a report stamps: its own, or the clock's if it has none. */
  function Stamp(r: Report): int {
    if r.failedAtNs == 0 then r.now else r.failedAtNs
  }

  /** `deps` is what the first plan node of this id that has any dependencies depends on. */
  ghost predicate FirstDeps(plan: Plan, id: string, deps: seq<string>) {
    if deps == [] then forall n :: n in plan && n.id == id ==> n.dependsOn == []
    else exists i :: 0 <= i < |plan| && plan[i].id == id && plan[i].dependsOn == deps &&
                     forall j :: 0 <= j < i && plan[j].id == id ==> plan[j].dependsOn == []
  }

  /** Phase, error and completion time. */
  ghost predicate Ends(ns: NodeStatus, phase: Phase, error: Reason, atNs: int) {
    ns.phase == phase && ns.error == error && ns.completedAtNs == atNs
  }

  ghost predicate SkippedBy(plan: Plan, r: Report, u: string, id: string, ns: NodeStatus) {
    (u == r.failedId || Reaches(plan, r.failedId, u)) && BeforeOnShortest(plan, r.failedId, u, id) &&
    Ends(ns, Skipped, Upstream(u, r.text), Stamp(r))
  }

  lemma {:induction false} FirstDepsFound(plan: Plan, id: string)
    ensures FirstDeps(plan, id, PlanDeps(plan, id))
  {
    if plan != [] {
      var init, n := plan[..|plan| - 1], plan[|plan| - 1];
      assert plan == init + [n];
      FirstDepsFound(init, id);
      var before := PlanDeps(init, id);
      if before != [] {
        var i :| 0 <= i < |init| && init[i].id == id && init[i].dependsOn == before &&
                 forall j :: 0 <= j < i && init[j].id == id ==> init[j].dependsOn == [];
        assert plan[i] == init[i];
      } else if n.id == id && n.dependsOn != [] {
        forall j | 0 <= j < |init| && plan[j].id == id ensures plan[j].dependsOn == [] { assert plan[j] in init; }
        assert plan[|init|].id == id;
      }
    }
  }

  /** A report read and written completely stores: the plan, the failed node and whatever was there;
      the failed node as failed with the report's text; every other node reachable from it as skipped,
      blamed on a direct dependency that is affected too and nearest to it; all with the report's time.
      Other nodes keep phase, error and time, and all keep their id, output and start. Dependencies
      are filled in from the plan where there were none. */
  lemma ReportStores(stored: Statuses, plan: Plan, r: Report, id: string)
    ensures var s := After(stored, plan, r, true, true, {});
            && (id in s <==> id in stored || id == r.failedId || exists n :: n in plan && n.id == id)
            && (id in s ==>
                  var was := Before(stored, id);
                  && s[id].nodeId == was.nodeId && s[id].output == was.output && s[id].startedAtNs == was.startedAtNs
                  && (if was.dependencies != [] then s[id].dependencies == was.dependencies
                      else FirstDeps(plan, id, s[id].dependencies))
                  && (if id == r.failedId then Ends(s[id], Failed, Reported(r.text), Stamp(r))
                      else if Reaches(plan, r.failedId, id) then exists u :: SkippedBy(plan, r, u, id, s[id])
                      else Ends(s[id], was.phase, was.error, was.completedAtNs)))
  {
    var s := After(stored, plan, r, true, true, {});
    AfterIsComputed(stored, plan, r);
    ComputedAt(stored, plan, r, id);
    SkipsExactlyReachable(plan, r.failedId);
    FirstDepsFound(plan, id);
    if id !in Ids(plan) { PlanDepsAbsent(plan, id); }
    if id in s && id != r.failedId && Reaches(plan, r.failedId, id) {
      BlameIsNearest(plan, r.failedId, id);
      assert SkippedBy(plan, r, Skips(plan, r.failedId)[id], id, s[id]);
    }
  }

  // ---------- counters, answer and events ----------

  /** The statuses a report computes: what it stores, or would have stored on an empty store. */
  ghost function Computes(stored: Statuses, plan: Plan, r: Report, readOk: bool): Statuses {
    After(if readOk then stored else map[], plan, r, true, true, {})
  }

  lemma ComputesIt(stored: Statuses, plan: Plan, r: Report, readOk: bool)
    ensures ComputedFrom(stored, plan, r, readOk) == Computes(stored, plan, r, readOk)
  {
    AfterIsComputed(if readOk then stored else map[], plan, r);
  }

  /** Whatever fails: the computed status where the write got through, the stored one elsewhere. */
  lemma AttemptStores(stored: Statuses, plan: Plan, r: Report, readOk: bool, writeOk: bool, written: set<string>,
                      id: string)
    ensures var s, c := After(stored, plan, r, readOk, writeOk, written), Computes(stored, plan, r, readOk);
            var got := id in c && (writeOk || id in written);
            && (id in s <==> got || id in stored)
            && (id in s ==> s[id] == if got then c[id] else stored[id])
  {
    ComputesIt(stored, plan, r, readOk);
  }

  /** `ids` holds the other nodes reachable from the failed one. */
  ghost predicate Downstream(plan: Plan, failed: string, ids: set<string>) {
    forall id :: id in ids <==> id != failed && Reaches(plan, failed, id)
  }

  lemma DownstreamSkipped(plan: Plan, failed: string)
    ensures Downstream(plan, failed, Skips(plan, failed).Keys)
  {
    SkipsExactlyReachable(plan, failed);
  }

  ghost function In(s: Statuses, phases: set<Phase>): set<string> {
    set id | id in s && s[id].phase in phases
  }

  lemma PhasesIn(s: Statuses)
    ensures WithPhase(s, Completed) == In(s, {Completed}) && WithPhase(s, Failed) == In(s, {Failed})
    ensures WithPhase(s, Skipped) == In(s, {Skipped}) && Open(s) == In(s, {Unset, Pending, Running})
  {
  }

  /** Counters and answer are the numbers of nodes in each phase among the computed statuses; the
      answer names the nodes downstream, and as affected the failed one with them. */
  lemma ReportCounts(stored: Statuses, plan: Plan, r: Report, readOk: bool)
    ensures var s, c := Computes(stored, plan, r, readOk), ComputedFrom(stored, plan, r, readOk);
            var meta, a := Counters(c, r), Summarized(r, Skips(plan, r.failedId).Keys, c);
            && meta.total == a.total == |s| && meta.completed == a.completed == |In(s, {Completed})|
            && meta.failed == a.failed == |In(s, {Failed})| && meta.skipped == a.skippedNodes == |In(s, {Skipped})|
            && a.remaining == |In(s, {Unset, Pending, Running})| && meta.updatedAtNs == Stamp(r)
            && Downstream(plan, r.failedId, a.skipped) && a.affected == a.skipped + {r.failedId}
  {
    ComputesIt(stored, plan, r, readOk);
    PhasesIn(Computes(stored, plan, r, readOk));
    DownstreamSkipped(plan, r.failedId);
  }

  lemma {:induction false} EventSent(r: Report, order: seq<string>, s: Summary, lost: set<DagEvent>, e: DagEvent)
    ensures var arrived := Arriving(Announcement(r, order, s), lost);
            && (e.NodeFailed? ==> (e in arrived <==> e !in lost && e == NodeFailed(r.failedId, r.text, FailedAt(r))))
            && (e.Replanned? ==>
                  (e in arrived <==> e !in lost && e == Replanned(r.failedId, s.skipped, s.affected, s.remaining)))
  {
    ArrivingExact(Announcement(r, order, s), lost, e);
    SkipEventsExact(r, order, e);
  }

  lemma FirstAndLast(r: Report, order: seq<string>, s: Summary)
    ensures var arrived := Arriving(Announcement(r, order, s), {});
            arrived != [] && arrived[0].NodeFailed? && arrived[|arrived| - 1].Replanned?
  {
    AllArrive(Announcement(r, order, s));
  }

  /** The event of the failure, first, and the event that sums the report up, last, say what happened;
      either can be lost. */
  lemma ReportEvents(plan: Plan, r: Report, computed: Statuses, lost: set<DagEvent>, before: seq<DagEvent>,
                     after: seq<DagEvent>, e: DagEvent)
    requires Announced(r, computed, Skips(plan, r.failedId).Keys, lost, before, after)
    ensures before <= after
    ensures e.NodeFailed? ==>
              (e in after[|before|..] <==> e !in lost && e.id == r.failedId && e.text == r.text && e.atNs == Stamp(r))
    ensures e.Replanned? ==>
              (e in after[|before|..] <==>
                 && e !in lost && e.failedId == r.failedId && Downstream(plan, r.failedId, e.skipped)
                 && e.affected == e.skipped + {r.failedId} && e.remaining == |In(computed, {Unset, Pending, Running})|)
    ensures lost == {} ==>
              |before| < |after| && after[|before|].NodeFailed? && after[|after| - 1].Replanned?
  {
    var skips := Skips(plan, r.failedId).Keys;
    var s := Summarized(r, skips, computed);
    var order :| Lists(order, skips) && after == before + Arriving(Announcement(r, order, s), lost);
    assert after[|before|..] == Arriving(Announcement(r, order, s), lost);
    EventSent(r, order, s, lost, e);
    PhasesIn(computed);
    DownstreamSkipped(plan, r.failedId);
    if e.Replanned? { SameDownstream(plan, r.failedId, e.skipped, skips); }
    if lost == {} { FirstAndLast(r, order, s); }
  }

  lemma SameDownstream(plan: Plan, failed: string, a: set<string>, b: set<string>)
    requires Downstream(plan, failed, b)
    ensures Downstream(plan, failed, a) <==> a == b
  {
    if Downstream(plan, failed, a) { assert forall id :: id in a <==> id in b; }
  }

  lemma {:induction false} AllArrive(sent: seq<DagEvent>)
    ensures Arriving(sent, {}) == sent
  {
    if sent != [] { AllArrive(sent[..|sent| - 1]); }
  }
}
