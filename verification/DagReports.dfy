/** One failure report as it changes the stored statuses, and whole runs of reports. */
module DagReports {
  import opened DagFailure
  import opened Wrappers

  /** `failedAtNs` zero means that the report takes the clock's reading `now`. */
  datatype Report = Report(failedId: string, text: string, failedAtNs: int, now: int)

  function FailedAt(r: Report): int {
    if r.failedAtNs == 0 then r.now else r.failedAtNs
  }

  function Fresh(id: string): NodeStatus {
    NodeStatus(id, Unset, [], "", 0, 0, NoReason)
  }

  /** The dependencies of the first plan node with this id that has any. */
  function PlanDeps(plan: Plan, id: string): seq<string> {
    if plan == [] then []
    else
      var before := PlanDeps(plan[..|plan| - 1], id);
      var n := plan[|plan| - 1];
      if before == [] && n.id == id then n.dependsOn else before
  }

  function WithDeps(ns: NodeStatus, plan: Plan, id: string): NodeStatus {
    if ns.dependencies == [] then ns.(dependencies := PlanDeps(plan, id)) else ns
  }

  function Known(s: Statuses, id: string): NodeStatus {
    if id in s then s[id] else Fresh(id)
  }

  function BaseAt(read: Statuses, plan: Plan, id: string): NodeStatus {
    if id in Ids(plan) then WithDeps(Known(read, id), plan, id) else Known(read, id)
  }

  /** The statuses read, completed with every node of the plan. */
  function Base(read: Statuses, plan: Plan): Statuses {
    map id | id in read.Keys + Ids(plan) :: BaseAt(read, plan, id)
  }

  function MarkFailed(ns: NodeStatus, r: Report): NodeStatus {
    ns.(phase := Failed, error := Reported(r.text), completedAtNs := FailedAt(r))
  }

  function MarkSkipped(ns: NodeStatus, r: Report, upstream: string): NodeStatus {
    ns.(phase := Skipped, error := Upstream(upstream, r.text), completedAtNs := FailedAt(r))
  }

  function MarkAt(ns: NodeStatus, r: Report, via: map<string, string>, id: string): NodeStatus {
    if id == r.failedId then MarkFailed(ns, r)
    else if id in via then MarkSkipped(ns, r, via[id])
    else ns
  }

  /** `base` with the failed node and the skipped nodes of `via` marked. */
  function Marked(base: Statuses, r: Report, via: map<string, string>): Statuses {
    map id | id in base.Keys + {r.failedId} + via.Keys :: MarkAt(Known(base, id), r, via, id)
  }

  /** The statuses a report computes from what it read. */
  ghost function Computed(read: Statuses, plan: Plan, r: Report): Statuses {
    Marked(Base(read, plan), r, Skips(plan, r.failedId))
  }

  function WithPhase(s: Statuses, phase: Phase): set<string> {
    set id | id in s && s[id].phase == phase
  }

  /** Nodes that are neither completed nor failed nor skipped. */
  function Open(s: Statuses): set<string> {
    set id | id in s && s[id].phase !in {Completed, Failed, Skipped}
  }

  datatype Summary = Summary(skipped: set<string>, affected: set<string>, completed: nat, failed: nat,
                             skippedNodes: nat, total: nat, remaining: int)

  datatype Answer = WriteFailed | Applied(summary: Summary)

  /** The store after writing `statuses`, of which a failing write only gets part through. */
  function Written(stored: Statuses, statuses: Statuses, writeOk: bool, written: set<string>): Statuses {
    if writeOk then stored + statuses
    else stored + (map id | id in statuses && id in written :: statuses[id])
  }

  /** The counters kept beside the statuses. */
  datatype Meta = Meta(total: nat, completed: nat, failed: nat, skipped: nat, updatedAtNs: int)

  function Counters(s: Statuses, r: Report): Meta {
    Meta(|s|, |WithPhase(s, Completed)|, |WithPhase(s, Failed)|, |WithPhase(s, Skipped)|, FailedAt(r))
  }

  datatype DagEvent = NodeFailed(id: string, text: string, atNs: int)
    | NodeSkipped(skippedId: string, upstream: string, skippedAtNs: int)
    | Replanned(failedId: string, skipped: set<string>, affected: set<string>, remaining: int)

  function SkipEvents(r: Report, order: seq<string>): seq<DagEvent> {
    if order == [] then []
    else SkipEvents(r, order[..|order| - 1]) + [NodeSkipped(order[|order| - 1], r.failedId, FailedAt(r))]
  }

  /** The events of a report that skips the nodes of `order`. */
  function Announcement(r: Report, order: seq<string>, s: Summary): seq<DagEvent> {
    [NodeFailed(r.failedId, r.text, FailedAt(r))] + SkipEvents(r, order) +
    [Replanned(r.failedId, s.skipped, s.affected, s.remaining)]
  }

  /** Appending an event may fail, which goes unnoticed. */
  function Arriving(sent: seq<DagEvent>, lost: set<DagEvent>): seq<DagEvent> {
    if sent == [] then []
    else
      var last := sent[|sent| - 1];
      Arriving(sent[..|sent| - 1], lost) + if last in lost then [] else [last]
  }

  /** `order` lists the members of `s`, each once. */
  ghost predicate Lists(order: seq<string>, s: set<string>) {
    (forall id :: id in order <==> id in s) && forall i, j :: 0 <= i < j < |order| ==> order[i] != order[j]
  }

  /** What a completed report announces about the statuses it computed. */
  function Summarized(r: Report, skips: set<string>, s: Statuses): Summary {
    Summary(skips, skips + {r.failedId}, |WithPhase(s, Completed)|, |WithPhase(s, Failed)|, |WithPhase(s, Skipped)|,
            |s|, |Open(s)|)
  }

  /** What the shared store holds about one workflow: the status entries, those that do not
      parse apart from the others, the counters and the event stream. */
  class StatusStore {
    var nodes: Statuses
    var garbled: set<string>
    var meta: Option<Meta>
    var stream: seq<DagEvent>

    method CompletePlan(read: Statuses, plan: Plan) returns (statuses: Statuses)
      ensures statuses == Base(read, plan)
    {
      statuses := read;
      for i := 0 to |plan|
        invariant statuses == Base(read, plan[..i])
      {
        var node := plan[i];
        BaseStep(read, plan, i);
        if node.id !in statuses {
          statuses := statuses[node.id := Fresh(node.id).(dependencies := node.dependsOn)];
        } else {
          var ns := statuses[node.id];
          if |ns.dependencies| == 0 {
            statuses := statuses[node.id := ns.(dependencies := node.dependsOn)];
          }
        }
      }
      assert plan[..|plan|] == plan;
    }

    /** The loop over the dependents of one node: each one met for the first time is marked and enqueued. */
    method VisitDependents(base: Statuses, r: Report, ghost s0: Search, current: string, deps: seq<string>,
                           statuses0: Statuses, skipped0: set<string>, queue0: seq<string>)
      returns (statuses: Statuses, skipped: set<string>, queue: seq<string>)
      requires s0.head <= |s0.order| && queue0 == s0.order[s0.head..]
      requires skipped0 == s0.via.Keys && statuses0 == Marked(base, r, s0.via)
      ensures var s := Visit(s0, r.failedId, current, deps);
              && s.head <= |s.order| && queue == s.order[s.head..]
              && skipped == s.via.Keys && statuses == Marked(base, r, s.via)
    {
      statuses, skipped, queue := statuses0, skipped0, queue0;
      ghost var s := s0;
      for i := 0 to |deps|
        invariant s == Visit(s0, r.failedId, current, deps[..i])
        invariant s.head <= |s.order| && queue == s.order[s.head..]
        invariant skipped == s.via.Keys && statuses == Marked(base, r, s.via)
      {
        var dep := deps[i];
        assert deps[..i + 1][..i] == deps[..i];
        if dep in skipped || dep == r.failedId {
          continue;
        }
        MarkOneMore(base, r, s.via, dep, current);
        skipped := skipped + {dep};
        queue := queue + [dep];
        statuses := statuses[dep := MarkSkipped(Known(statuses, dep), r, current)];
        s := s.(order := s.order + [dep], via := s.via[dep := current]);
      }
      assert deps[..|deps|] == deps;
    }

    /** The queue loop. */
    method Propagate(base: Statuses, plan: Plan, r: Report)
      returns (statuses: Statuses, skipped: set<string>, affected: set<string>)
      ensures skipped == Skips(plan, r.failedId).Keys && affected == skipped + {r.failedId}
      ensures statuses == Marked(base, r, Skips(plan, r.failedId))
    {
      var dependents := BuildDependents(plan);
      statuses, skipped := base[r.failedId := MarkFailed(Known(base, r.failedId), r)], {};
      MarkNone(base, r);
      var queue := [r.failedId];
      ghost var s := Start(r.failedId);
      StartRunning(plan, r.failedId);
      while |queue| > 0
        invariant InProgress(plan, r.failedId, s) && queue == s.order[s.head..]
        invariant Finish(plan, r.failedId, s).via == Skips(plan, r.failedId)
        invariant skipped == s.via.Keys && statuses == Marked(base, r, s.via)
        decreases Ids(plan) - s.via.Keys, |queue|
      {
        var current := queue[0];
        RoundSound(plan, r.failedId, s);
        statuses, skipped, queue := VisitDependents(base, r, s.(head := s.head + 1), current,
                                                    Indexed(dependents, current), statuses, skipped, queue[1..]);
        s := Round(plan, r.failedId, s);
      }
      affected := skipped + {r.failedId};
    }

    method CountPhases(statuses: Statuses) returns (completed: nat, failed: nat, skipped: nat, total: nat)
      ensures completed == |WithPhase(statuses, Completed)| && failed == |WithPhase(statuses, Failed)|
      ensures skipped == |WithPhase(statuses, Skipped)| && total == |statuses|
    {
      completed, failed, skipped, total := 0, 0, 0, 0;
      var rest := statuses.Keys;
      while rest != {}
        invariant rest <= statuses.Keys && Tally(statuses, rest, completed, failed, skipped, total)
        decreases |rest|
      {
        var id :| id in rest;
        TallyStep(statuses, rest, id, completed, failed, skipped, total);
        rest := rest - {id};
        total := total + 1;
        match statuses[id].phase {
          case Completed => completed := completed + 1;
          case Failed => failed := failed + 1;
          case Skipped => skipped := skipped + 1;
          case _ =>
        }
      }
      assert statuses.Keys - rest == statuses.Keys;
      OutsideAll(statuses, Completed);
      OutsideAll(statuses, Failed);
      OutsideAll(statuses, Skipped);
    }

    method Summarize(statuses: Statuses, r: Report, skipped: set<string>, affected: set<string>) returns (s: Summary)
      requires affected == skipped + {r.failedId}
      ensures s == Summarized(r, skipped, statuses)
    {
      var completed, failed, skippedNodes, total := CountPhases(statuses);
      CountsAddUp(statuses);
      s := Summary(skipped, affected, completed, failed, skippedNodes, total,
                   total - completed - failed - skippedNodes);
    }

    /** The members of a set in whatever order the map iteration meets them. */
    method Enumerate(ids: set<string>) returns (order: seq<string>)
      ensures Lists(order, ids)
    {
      order := [];
      var rest := ids;
      while rest != {}
        invariant rest <= ids && Lists(order, ids - rest)
        decreases |rest|
      {
        var id :| id in rest;
        rest := rest - {id};
        order := order + [id];
      }
      assert ids - rest == ids;
    }

    method Emit(e: DagEvent, lost: set<DagEvent>)
      modifies this`stream
      ensures stream == old(stream) + if e in lost then [] else [e]
    {
      stream := stream + if e in lost then [] else [e];
    }

    method EmitAll(r: Report, order: seq<string>, s: Summary, lost: set<DagEvent>)
      modifies this`stream
      ensures stream == old(stream) + Arriving(Announcement(r, order, s), lost)
    {
      var failed := NodeFailed(r.failedId, r.text, FailedAt(r));
      ghost var before, sent := stream, [failed];
      Emit(failed, lost);
      for i := 0 to |order|
        invariant sent == [failed] + SkipEvents(r, order[..i])
        invariant stream == before + Arriving(sent, lost)
      {
        var skip := NodeSkipped(order[i], r.failedId, FailedAt(r));
        SkipEventsPush(r, order, i);
        ArrivingPush(before, sent, skip, lost);
        sent := sent + [skip];
        Emit(skip, lost);
      }
      var replanned := Replanned(r.failedId, s.skipped, s.affected, s.remaining);
      assert order[..|order|] == order;
      ArrivingPush(before, sent, replanned, lost);
      Emit(replanned, lost);
    }

    /** A failing write may have reached any of the nodes, `written` says which. */
    method WriteBack(statuses: Statuses, writeOk: bool, written: set<string>)
      modifies this`nodes, this`garbled
      ensures nodes == Written(old(nodes), statuses, writeOk, written)
      ensures garbled == old(garbled) - (if writeOk then statuses.Keys else statuses.Keys * written)
    {
      nodes := Written(nodes, statuses, writeOk, written);
      garbled := garbled - (if writeOk then statuses.Keys else statuses.Keys * written);
    }

    /** Counters and events once the statuses are written; failures here go unnoticed. */
    method Publish(statuses: Statuses, r: Report, skipped: set<string>, affected: set<string>, metaOk: bool,
                   lost: set<DagEvent>)
      returns (summary: Summary)
      requires affected == skipped + {r.failedId}
      modifies this`meta, this`stream
      ensures summary == Summarized(r, skipped, statuses)
      ensures meta == (if metaOk then Some(Counters(statuses, r)) else old(meta))
      ensures Announced(r, statuses, skipped, lost, old(stream), stream)
    {
      var order := Enumerate(skipped);
      summary := Summarize(statuses, r, skipped, affected);
      if metaOk {
        meta := Some(Meta(summary.total, summary.completed, summary.failed, summary.skippedNodes, FailedAt(r)));
      }
      EmitAll(r, order, summary, lost);
    }

    /** A failed read is answered with an empty store, an entry that does not parse is not read.
        A failed write ends the report. */
    method HandleNodeFailure(plan: Plan, r: Report, readOk: bool, writeOk: bool, written: set<string>, metaOk: bool,
                             lost: set<DagEvent>)
      returns (a: Answer)
      modifies this
      ensures nodes == After(old(nodes), plan, r, readOk, writeOk, written)
      ensures var computed := ComputedFrom(old(nodes), plan, r, readOk);
              && garbled == old(garbled) - (if writeOk then computed.Keys else computed.Keys * written)
              && (!writeOk ==> a == WriteFailed && meta == old(meta) && stream == old(stream))
              && (writeOk ==>
                    && a == Applied(Summarized(r, Skips(plan, r.failedId).Keys, computed))
                    && meta == (if metaOk then Some(Counters(computed, r)) else old(meta))
                    && Announced(r, computed, Skips(plan, r.failedId).Keys, lost, old(stream), stream))
    {
      var base := CompletePlan(if readOk then nodes else map[], plan);
      var statuses, skipped, affected := Propagate(base, plan, r);
      assert statuses == ComputedFrom(nodes, plan, r, readOk);
      WriteBack(statuses, writeOk, written);
      if !writeOk {
        return WriteFailed;
      }
      var summary := Publish(statuses, r, skipped, affected, metaOk, lost);
      a := Applied(summary);
    }
  }

  /** The stream grew by the events of one report, in some order of the skipped nodes. */
  ghost predicate Announced(r: Report, computed: Statuses, skips: set<string>, lost: set<DagEvent>,
                            before: seq<DagEvent>, after: seq<DagEvent>) {
    exists order :: Lists(order, skips) &&
      after == before + Arriving(Announcement(r, order, Summarized(r, skips, computed)), lost)
  }

  // ---------- lemmas behind the loops ----------

  lemma {:induction false} ArrivingPush(before: seq<DagEvent>, sent: seq<DagEvent>, e: DagEvent, lost: set<DagEvent>)
    ensures before + Arriving(sent + [e], lost) == (before + Arriving(sent, lost)) + (if e in lost then [] else [e])
  {
    assert (sent + [e])[..|sent|] == sent;
  }

  lemma {:induction false} SkipEventsPush(r: Report, order: seq<string>, i: nat)
    requires i < |order|
    ensures [NodeFailed(r.failedId, r.text, FailedAt(r))] + SkipEvents(r, order[..i + 1]) ==
            ([NodeFailed(r.failedId, r.text, FailedAt(r))] + SkipEvents(r, order[..i])) +
            [NodeSkipped(order[i], r.failedId, FailedAt(r))]
  {
    assert order[..i + 1][..i] == order[..i];
  }

  lemma {:induction false} PlanDepsStep(plan: Plan, i: nat, id: string)
    requires i < |plan|
    ensures PlanDeps(plan[..i + 1], id) ==
            if PlanDeps(plan[..i], id) == [] && plan[i].id == id then plan[i].dependsOn else PlanDeps(plan[..i], id)
    ensures id in Ids(plan[..i + 1]) <==> id in Ids(plan[..i]) || id == plan[i].id
  {
    assert plan[..i + 1] == plan[..i] + [plan[i]];
    assert plan[..i + 1][..i] == plan[..i];
    assert plan[i] in plan[..i + 1];
  }

  lemma {:induction false} PlanDepsAbsent(plan: Plan, id: string)
    requires id !in Ids(plan)
    ensures PlanDeps(plan, id) == []
  {
    if plan != [] {
      var init, n := plan[..|plan| - 1], plan[|plan| - 1];
      assert n in plan && forall x :: x in init ==> x in plan;
      PlanDepsAbsent(init, id);
    }
  }

  lemma BaseAtStep(read: Statuses, plan: Plan, i: nat, id: string)
    requires i < |plan|
    ensures id in Ids(plan[..i + 1]) <==> id in Ids(plan[..i]) || id == plan[i].id
    ensures BaseAt(read, plan[..i + 1], id) ==
              var ns := BaseAt(read, plan[..i], id);
              if id == plan[i].id && ns.dependencies == [] then ns.(dependencies := plan[i].dependsOn) else ns
  {
    PlanDepsStep(plan, i, id);
    if id !in Ids(plan[..i]) { PlanDepsAbsent(plan[..i], id); }
  }

  /** What completing the statuses with one more plan node changes. */
  lemma BaseStep(read: Statuses, plan: Plan, i: nat)
    requires i < |plan|
    ensures var id, before := plan[i].id, Base(read, plan[..i]);
            Base(read, plan[..i + 1]) ==
              if id !in before then before[id := Fresh(id).(dependencies := plan[i].dependsOn)]
              else if before[id].dependencies == [] then before[id := before[id].(dependencies := plan[i].dependsOn)]
              else before
  {
    var before, after := Base(read, plan[..i]), Base(read, plan[..i + 1]);
    forall id
      ensures id in after <==> id in before || id == plan[i].id
      ensures BaseAt(read, plan[..i + 1], id) ==
              var ns := BaseAt(read, plan[..i], id);
              if id == plan[i].id && ns.dependencies == [] then ns.(dependencies := plan[i].dependsOn) else ns
    {
      BaseAtStep(read, plan, i, id);
    }
  }

  lemma MarkNone(base: Statuses, r: Report)
    ensures Marked(base, r, map[]) == base[r.failedId := MarkFailed(Known(base, r.failedId), r)]
  {
  }

  lemma MarkOneMore(base: Statuses, r: Report, via: map<string, string>, dep: string, current: string)
    requires dep !in via && dep != r.failedId
    ensures Marked(base, r, via[dep := current]) ==
            Marked(base, r, via)[dep := MarkSkipped(Known(Marked(base, r, via), dep), r, current)]
  {
  }

  function PhaseOutside(s: Statuses, rest: set<string>, phase: Phase): set<string> {
    set id | id in s && id !in rest && s[id].phase == phase
  }

  lemma OutsideStep(s: Statuses, rest: set<string>, id: string, phase: Phase)
    requires id in rest && rest <= s.Keys
    ensures |PhaseOutside(s, rest - {id}, phase)| ==
            |PhaseOutside(s, rest, phase)| + if s[id].phase == phase then 1 else 0
  {
    assert PhaseOutside(s, rest - {id}, phase) ==
           PhaseOutside(s, rest, phase) + if s[id].phase == phase then {id} else {};
  }

  ghost predicate Tally(s: Statuses, rest: set<string>, completed: nat, failed: nat, skipped: nat, total: nat) {
    && completed == |PhaseOutside(s, rest, Completed)|
    && failed == |PhaseOutside(s, rest, Failed)|
    && skipped == |PhaseOutside(s, rest, Skipped)|
    && total == |s.Keys - rest|
  }

  lemma TallyStep(s: Statuses, rest: set<string>, id: string, completed: nat, failed: nat, skipped: nat, total: nat)
    requires id in rest && rest <= s.Keys && Tally(s, rest, completed, failed, skipped, total)
    ensures var p := s[id].phase;
            Tally(s, rest - {id}, if p == Completed then completed + 1 else completed,
                  if p == Failed then failed + 1 else failed, if p == Skipped then skipped + 1 else skipped, total + 1)
  {
    OutsideStep(s, rest, id, Completed);
    OutsideStep(s, rest, id, Failed);
    OutsideStep(s, rest, id, Skipped);
    assert s.Keys - (rest - {id}) == (s.Keys - rest) + {id};
  }

  lemma OutsideAll(s: Statuses, phase: Phase)
    ensures |PhaseOutside(s, {}, phase)| == |WithPhase(s, phase)|
  {
    assert PhaseOutside(s, {}, phase) == WithPhase(s, phase);
  }

  lemma FourParts(all: set<string>, a: set<string>, b: set<string>, c: set<string>, d: set<string>)
    requires all == a + b + c + d && a !! b !! c !! d
    ensures |a| + |b| + |c| + |d| == |all|
  {
    assert |a + b| == |a| + |b|;
    assert |a + b + c| == |a + b| + |c|;
  }

  /** The three counters and the nodes in any other phase make up the whole plan, so the
      remaining count a summary reports is the number of nodes still open. */
  lemma CountsAddUp(s: Statuses)
    ensures |WithPhase(s, Completed)| + |WithPhase(s, Failed)| + |WithPhase(s, Skipped)| + |Open(s)| == |s|
  {
    var c, f, k, o := WithPhase(s, Completed), WithPhase(s, Failed), WithPhase(s, Skipped), Open(s);
    assert s.Keys == c + f + k + o;
    FourParts(s.Keys, c, f, k, o);
  }

  // ---------- whole runs ----------

  ghost function ComputedFrom(stored: Statuses, plan: Plan, r: Report, readOk: bool): Statuses {
    Computed(if readOk then stored else map[], plan, r)
  }

  /** The stored statuses after one report. */
  ghost function After(stored: Statuses, plan: Plan, r: Report, readOk: bool, writeOk: bool, written: set<string>)
    : Statuses
  {
    Written(stored, ComputedFrom(stored, plan, r, readOk), writeOk, written)
  }

  ghost predicate Down(s: Statuses, id: string) {
    id in s && (s[id].phase == Failed || s[id].phase == Skipped)
  }

  /** Whatever depends on a failed or skipped node is itself failed or skipped. */
  ghost predicate Closed(s: Statuses, plan: Plan) {
    forall a, b :: Down(s, a) && Edge(plan, a, b) ==> Down(s, b)
  }

  lemma AffectedClosed(plan: Plan, failed: string, a: string, b: string)
    requires (a == failed || a in Skips(plan, failed)) && Edge(plan, a, b)
    ensures b == failed || b in Skips(plan, failed)
  {
    SkipsExactlyReachable(plan, failed);
    ReachesOneMore(plan, failed, a, b);
  }

  /** What a report makes of one node. */
  lemma ComputedAt(read: Statuses, plan: Plan, r: Report, id: string)
    ensures var c := Computed(read, plan, r);
            && (id in c <==> id in read || id in Ids(plan) || id == r.failedId)
            && (id in c ==> c[id] == MarkAt(BaseAt(read, plan, id), r, Skips(plan, r.failedId), id))
    ensures id in Skips(plan, r.failedId) ==> id in Ids(plan)
  {
    SkipsExactlyReachable(plan, r.failedId);
    var base := Base(read, plan);
    if id !in base { assert Known(base, id) == Known(read, id); }
  }

  /** Nodes neither failed nor reachable from the failed one keep phase, error, output and times. */
  lemma OthersKeepTheirStatus(stored: Statuses, plan: Plan, r: Report, id: string)
    requires id in stored && id != r.failedId && !Reaches(plan, r.failedId, id)
    ensures var s := After(stored, plan, r, true, true, {});
            id in s && s[id].(dependencies := []) == stored[id].(dependencies := []) &&
            (stored[id].dependencies != [] ==> s[id] == stored[id])
  {
    SkipsExactlyReachable(plan, r.failedId);
    ComputedAt(stored, plan, r, id);
  }

  /** A completed report keeps the down set closed. */
  lemma ReportKeepsClosed(stored: Statuses, plan: Plan, r: Report)
    requires Closed(stored, plan)
    ensures Closed(After(stored, plan, r, true, true, {}), plan)
  {
    var s := After(stored, plan, r, true, true, {});
    forall a, b | Down(s, a) && Edge(plan, a, b) ensures Down(s, b) {
      ComputedAt(stored, plan, r, a);
      ComputedAt(stored, plan, r, b);
      EdgeInPlan(plan, a, b);
      if a == r.failedId || a in Skips(plan, r.failedId) {
        AffectedClosed(plan, r.failedId, a, b);
      } else {
        assert Down(stored, a) && Down(stored, b);
      }
    }
  }

  ghost predicate Affected(plan: Plan, r: Report, id: string) {
    id == r.failedId || id in Skips(plan, r.failedId)
  }

  lemma DownAfterFailedRead(stored: Statuses, plan: Plan, r: Report, id: string)
    ensures Down(After(stored, plan, r, false, true, {}), id) <==>
            Affected(plan, r, id) || (id !in Ids(plan) && Down(stored, id))
  {
    ComputedAt(map[], plan, r, id);
  }

  /** A report that could not read the store keeps the down set closed exactly when every node
      depending on a down node outside the plan is affected anyway. */
  lemma FailedReadClosedIff(stored: Statuses, plan: Plan, r: Report)
    ensures Closed(After(stored, plan, r, false, true, {}), plan) <==>
            forall a, b :: a !in Ids(plan) && !Affected(plan, r, a) && Down(stored, a) && Edge(plan, a, b) ==>
              Affected(plan, r, b)
  {
    var s := After(stored, plan, r, false, true, {});
    forall id
      ensures Down(s, id) <==> Affected(plan, r, id) || (id !in Ids(plan) && Down(stored, id))
    {
      DownAfterFailedRead(stored, plan, r, id);
    }
    forall a, b | Edge(plan, a, b) ensures b in Ids(plan) && (Affected(plan, r, a) ==> Affected(plan, r, b)) {
      EdgeInPlan(plan, a, b);
      if Affected(plan, r, a) { AffectedClosed(plan, r.failedId, a, b); }
    }
  }

  lemma {:induction false} SkipEventsExact(r: Report, order: seq<string>, e: DagEvent)
    ensures e in SkipEvents(r, order) <==>
            e.NodeSkipped? && e.skippedId in order && e.upstream == r.failedId && e.skippedAtNs == FailedAt(r)
    ensures |SkipEvents(r, order)| == |order|
  {
    if order != [] {
      assert order == order[..|order| - 1] + [order[|order| - 1]];
      SkipEventsExact(r, order[..|order| - 1], e);
    }
  }

  lemma {:induction false} ArrivingExact(sent: seq<DagEvent>, lost: set<DagEvent>, e: DagEvent)
    ensures e in Arriving(sent, lost) <==> e in sent && e !in lost
    ensures |Arriving(sent, lost)| <= |sent| && (lost == {} ==> |Arriving(sent, lost)| == |sent|)
  {
    if sent != [] {
      assert sent == sent[..|sent| - 1] + [sent[|sent| - 1]];
      ArrivingExact(sent[..|sent| - 1], lost, e);
    }
  }

  lemma {:induction false} ListedOnce(order: seq<string>, ids: set<string>)
    requires Lists(order, ids)
    ensures |order| == |ids|
  {
    if order == [] {
      assert ids == {};
    } else {
      var init, last := order[..|order| - 1], order[|order| - 1];
      assert order == init + [last];
      ListedOnce(init, ids - {last});
    }
  }

  lemma {:induction false} AnnouncementExact(r: Report, order: seq<string>, s: Summary, lost: set<DagEvent>,
      e: DagEvent)
    ensures var arrived := Arriving(Announcement(r, order, s), lost);
            && |arrived| <= |order| + 2 && (lost == {} ==> |arrived| == |order| + 2)
            && (e.NodeSkipped? ==> (e in arrived <==> e !in lost && e.skippedId in order && e.upstream == r.failedId &&
                                                      e.skippedAtNs == FailedAt(r)))
  {
    var sent := Announcement(r, order, s);
    SkipEventsExact(r, order, e);
    ArrivingExact(sent, lost, e);
  }

  /** What a reader of the event stream learns from one report: as skipped it names exactly the
      other nodes reachable from the failed one, but for appends that failed, and none of them
      twice. */
  lemma SkipsAnnouncedExactly(plan: Plan, r: Report, computed: Statuses, lost: set<DagEvent>, before: seq<DagEvent>,
                              after: seq<DagEvent>, e: DagEvent)
    requires Announced(r, computed, Skips(plan, r.failedId).Keys, lost, before, after)
    ensures before <= after && |after| - |before| <= |Skips(plan, r.failedId)| + 2
    ensures lost == {} ==> |after| - |before| == |Skips(plan, r.failedId)| + 2
    ensures e.NodeSkipped? ==>
              (e in after[|before|..] <==>
                 && e !in lost && e.skippedId != r.failedId && Reaches(plan, r.failedId, e.skippedId)
                 && e.upstream == r.failedId && e.skippedAtNs == FailedAt(r))
  {
    var skips := Skips(plan, r.failedId).Keys;
    var s := Summarized(r, skips, computed);
    var order :| Lists(order, skips) && after == before + Arriving(Announcement(r, order, s), lost);
    assert after[|before|..] == Arriving(Announcement(r, order, s), lost);
    SkipsExactlyReachable(plan, r.failedId);
    ListedOnce(order, skips);
    AnnouncementExact(r, order, s, lost, e);
  }

  lemma WithDepsTwice(ns: NodeStatus, plan: Plan, id: string)
    ensures WithDeps(WithDeps(ns, plan, id), plan, id) == WithDeps(ns, plan, id)
  {
  }

  /** Node by node: reading back any part of what a report wrote and handling it again at the
      same time computes the same status. */
  lemma RetryAt(stored: Statuses, plan: Plan, r: Report, retry: Report, written: set<string>, id: string)
    requires retry == r.(now := retry.now)
    ensures var partial := After(stored, plan, r, true, false, written);
            var c, again := Computed(stored, plan, r), Computed(partial, plan, retry);
            && (id in again <==> id in c)
            && (id in c && FailedAt(retry) == FailedAt(r) ==> again[id] == c[id])
            && (id in c && id == r.failedId ==>
                  again[id].completedAtNs == FailedAt(retry) && c[id].completedAtNs == FailedAt(r))
  {
    var partial := After(stored, plan, r, true, false, written);
    ComputedAt(stored, plan, r, id);
    ComputedAt(partial, plan, retry, id);
    WithDepsTwice(Known(stored, id), plan, id);
    var c := Computed(stored, plan, r);
    if id in c && id in written {
      assert Known(partial, id) == c[id];
    } else {
      assert Known(partial, id) == Known(stored, id);
    }
  }

  lemma AfterIsComputed(stored: Statuses, plan: Plan, r: Report)
    ensures After(stored, plan, r, true, true, {}) == Computed(stored, plan, r)
  {
    var c := Computed(stored, plan, r);
    forall id | id in stored ensures id in c { ComputedAt(stored, plan, r, id); }
    assert stored + c == c;
  }

  /** Writing `c` over a store leaves its counters the store's exactly if `c` covers the store. */
  lemma OverlayCounters(stored: Statuses, c: Statuses, r: Report)
    ensures Counters(c, r) == Counters(stored + c, r) <==> stored.Keys <= c.Keys
  {
    var s := stored + c;
    if stored.Keys <= c.Keys {
      assert s == c;
    } else {
      assert s.Keys == c.Keys + (s.Keys - c.Keys);
    }
  }

  lemma KeysAre(c: Statuses, ids: set<string>)
    requires forall id :: id in c <==> id in ids
    ensures c.Keys == ids
  {
  }

  lemma UnreadKeys(plan: Plan, r: Report)
    ensures Computed(map[], plan, r).Keys == Ids(plan) + {r.failedId}
  {
    var c, ids := Computed(map[], plan, r), Ids(plan) + {r.failedId};
    forall id ensures id in c <==> id in ids { ComputedAt(map[], plan, r, id); }
    KeysAre(c, ids);
  }

  /** The counters a report writes describe the stored statuses exactly if it could read them or
      they hold nothing outside the plan and the failed node. */
  lemma CountersDescribeStoreIff(stored: Statuses, plan: Plan, r: Report, readOk: bool)
    ensures Counters(ComputedFrom(stored, plan, r, readOk), r) ==
            Counters(After(stored, plan, r, readOk, true, {}), r) <==>
              readOk || stored.Keys <= Ids(plan) + {r.failedId}
  {
    if readOk {
      AfterIsComputed(stored, plan, r);
    } else {
      UnreadKeys(plan, r);
      OverlayCounters(stored, ComputedFrom(stored, plan, r, false), r);
    }
  }

  lemma RetryComputesSame(stored: Statuses, plan: Plan, r: Report, retry: Report, written: set<string>)
    requires retry == r.(now := retry.now) && FailedAt(retry) == FailedAt(r)
    ensures Computed(After(stored, plan, r, true, false, written), plan, retry) == Computed(stored, plan, r)
  {
    forall id { RetryAt(stored, plan, r, retry, written, id); }
  }

  /** Retrying a report whose write got through for any part of the nodes, all of them included,
      ends in the state a single undisturbed report reaches: exactly if both runs stamp the same
      time, which a nonzero `failedAtNs` guarantees. */
  lemma RetryReachesSameState(stored: Statuses, plan: Plan, r: Report, retryNow: int, written: set<string>)
    ensures var partial := After(stored, plan, r, true, false, written);
            After(partial, plan, r.(now := retryNow), true, true, {}) == After(stored, plan, r, true, true, {}) <==>
            (r.failedAtNs != 0 || retryNow == r.now)
  {
    var partial := After(stored, plan, r, true, false, written);
    var retry := r.(now := retryNow);
    AfterIsComputed(stored, plan, r);
    AfterIsComputed(partial, plan, retry);
    if FailedAt(retry) == FailedAt(r) {
      RetryComputesSame(stored, plan, r, retry, written);
    } else {
      RetryAt(stored, plan, r, retry, written, r.failedId);
      ComputedAt(stored, plan, r, r.failedId);
    }
  }

  /** A report that could not read the store forgets the phase of every plan node it does not
      affect: nothing outside the skipped part stays completed. */
  lemma ReadFailureForgets(stored: Statuses, plan: Plan, r: Report, id: string)
    requires id in Ids(plan) && id != r.failedId && !Reaches(plan, r.failedId, id)
    ensures var s := After(stored, plan, r, false, true, {}); id in s && s[id].phase == Unset
  {
    SkipsExactlyReachable(plan, r.failedId);
    ComputedAt(map[], plan, r, id);
  }
}
