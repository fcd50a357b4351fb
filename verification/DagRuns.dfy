/** Whole runs of failure reports, any of which may fail to read the store or get only part of its
    statuses written: which nodes end failed or skipped, and when a dependent is left open.
 */
module DagRuns {
  import opened DagFailure
  import opened DagReports

  /** One report as it went: whether it could read the store, whether its write succeeded, and
      which nodes a failed write reached. */
  datatype Attempt = Attempt(report: Report, readOk: bool, writeOk: bool, written: set<string>)

  ghost function AfterAttempt(stored: Statuses, plan: Plan, a: Attempt): Statuses {
    After(stored, plan, a.report, a.readOk, a.writeOk, a.written)
  }

  ghost function AfterAll(stored: Statuses, plan: Plan, run: seq<Attempt>): Statuses {
    if run == [] then stored else AfterAttempt(AfterAll(stored, plan, run[..|run| - 1]), plan, run[|run| - 1])
  }

  // ---------- one attempt ----------

  predicate Lands(a: Attempt, id: string) {
    a.writeOk || id in a.written
  }

  /** The attempt takes the node down. */
  ghost predicate Marks(plan: Plan, a: Attempt, id: string) {
    Affected(plan, a.report, id) && Lands(a, id)
  }

  /** The attempt writes the node anew without having read it. */
  ghost predicate Forgets(plan: Plan, a: Attempt, id: string) {
    !a.readOk && id in Ids(plan) && !Affected(plan, a.report, id) && Lands(a, id)
  }

  lemma DownComputed(read: Statuses, plan: Plan, r: Report, id: string)
    ensures Down(Computed(read, plan, r), id) <==> Affected(plan, r, id) || Down(read, id)
    ensures id in Computed(read, plan, r) <==> id in read || id in Ids(plan) || id == r.failedId
    ensures Affected(plan, r, id) ==> id in Computed(read, plan, r)
  {
    ComputedAt(read, plan, r, id);
  }

  lemma DownWritten(stored: Statuses, statuses: Statuses, writeOk: bool, written: set<string>, id: string)
    ensures Down(Written(stored, statuses, writeOk, written), id) <==>
            if (writeOk || id in written) && id in statuses then Down(statuses, id) else Down(stored, id)
  {
  }

  lemma DownAfter(stored: Statuses, plan: Plan, a: Attempt, id: string)
    ensures Down(AfterAttempt(stored, plan, a), id) <==>
            Marks(plan, a, id) || (Down(stored, id) && !Forgets(plan, a, id))
  {
    var read := if a.readOk then stored else map[];
    DownComputed(read, plan, a.report, id);
    DownWritten(stored, Computed(read, plan, a.report), a.writeOk, a.written, id);
  }

  /** A dependent of a node that the attempt takes down is neither written nor down already. */
  ghost predicate HalfWritten(stored: Statuses, plan: Plan, a: Attempt) {
    exists x, y :: Edge(plan, x, y) && Marks(plan, a, x) && !Lands(a, y) && !Down(stored, y)
  }

  /** A dependent of a node that stays down is forgotten. */
  ghost predicate HalfForgotten(stored: Statuses, plan: Plan, a: Attempt) {
    exists x, y :: Edge(plan, x, y) && Down(stored, x) && !Forgets(plan, a, x) && Forgets(plan, a, y)
  }

  /** However an attempt goes, it leaves a dependent of a failed or skipped node open exactly if
      its write stopped between such a node and its dependent, or its failed read made it forget
      the dependent of a node that stays down. */
  lemma AttemptClosedIff(stored: Statuses, plan: Plan, a: Attempt)
    requires Closed(stored, plan)
    ensures Closed(AfterAttempt(stored, plan, a), plan) <==>
            !HalfWritten(stored, plan, a) && !HalfForgotten(stored, plan, a)
  {
    var s := AfterAttempt(stored, plan, a);
    forall x ensures Down(s, x) <==> Marks(plan, a, x) || (Down(stored, x) && !Forgets(plan, a, x)) {
      DownAfter(stored, plan, a, x);
    }
    forall x, y | Edge(plan, x, y) && Affected(plan, a.report, x) ensures Affected(plan, a.report, y) {
      AffectedClosed(plan, a.report.failedId, x, y);
    }
    ClosedFromMarks(stored, s, plan, a);
  }

  lemma ClosedFromMarks(stored: Statuses, s: Statuses, plan: Plan, a: Attempt)
    requires Closed(stored, plan)
    requires forall x :: Down(s, x) <==> Marks(plan, a, x) || (Down(stored, x) && !Forgets(plan, a, x))
    requires forall x, y :: Edge(plan, x, y) && Affected(plan, a.report, x) ==> Affected(plan, a.report, y)
    ensures Closed(s, plan) <==> !HalfWritten(stored, plan, a) && !HalfForgotten(stored, plan, a)
  {
    if x, y :| Edge(plan, x, y) && Marks(plan, a, x) && !Lands(a, y) && !Down(stored, y) {
      assert Down(s, x) && !Down(s, y);
    }
    if x, y :| Edge(plan, x, y) && Down(stored, x) && !Forgets(plan, a, x) && Forgets(plan, a, y) {
      assert Down(s, x) && !Down(s, y);
    }
    if x, y :| Edge(plan, x, y) && Down(s, x) && !Down(s, y) {
      assert Marks(plan, a, x) ==> HalfWritten(stored, plan, a);
    }
  }

  /** A report that was read but only partly written leaves a dependent open exactly if it left out
      an open dependent of a node it wrote down. */
  lemma PartialWriteClosedIff(stored: Statuses, plan: Plan, r: Report, written: set<string>)
    requires Closed(stored, plan)
    ensures Closed(After(stored, plan, r, true, false, written), plan) <==>
            forall x, y :: Affected(plan, r, x) && x in written && Edge(plan, x, y) ==> y in written || Down(stored, y)
  {
    AttemptClosedIff(stored, plan, Attempt(r, true, false, written));
  }

  // ---------- whole runs ----------

  /** Attempt `i` takes the node down and none behind it forgets it. */
  ghost predicate MarkedFor(plan: Plan, run: seq<Attempt>, id: string, i: nat) {
    i < |run| && Marks(plan, run[i], id) && forall j :: i < j < |run| ==> !Forgets(plan, run[j], id)
  }

  /** What the run says of a node, without the statuses in between. */
  ghost predicate DownInRun(stored: Statuses, plan: Plan, run: seq<Attempt>, id: string) {
    || (exists i: nat :: MarkedFor(plan, run, id, i))
    || (Down(stored, id) && forall j :: 0 <= j < |run| ==> !Forgets(plan, run[j], id))
  }

  lemma MarkedForMore(plan: Plan, run: seq<Attempt>, id: string, i: nat)
    requires i < |run| - 1
    ensures var init, last := run[..|run| - 1], run[|run| - 1];
            MarkedFor(plan, run, id, i) <==> MarkedFor(plan, init, id, i) && !Forgets(plan, last, id)
  {
    var init := run[..|run| - 1];
    assert forall j :: 0 <= j < |init| ==> init[j] == run[j];
  }

  lemma MarkedForStep(plan: Plan, run: seq<Attempt>, id: string)
    requires run != []
    ensures var init, last := run[..|run| - 1], run[|run| - 1];
            (exists i: nat :: MarkedFor(plan, run, id, i)) <==>
            Marks(plan, last, id) || ((exists i: nat :: MarkedFor(plan, init, id, i)) && !Forgets(plan, last, id))
  {
    var init, last := run[..|run| - 1], run[|run| - 1];
    if Marks(plan, last, id) {
      assert MarkedFor(plan, run, id, |init|);
    } else if i: nat :| MarkedFor(plan, init, id, i) {
      MarkedForMore(plan, run, id, i);
    }
    if i: nat :| MarkedFor(plan, run, id, i) {
      if i < |init| { MarkedForMore(plan, run, id, i); }
    }
  }

  lemma ForgetsStep(plan: Plan, run: seq<Attempt>, id: string)
    requires run != []
    ensures var init, last := run[..|run| - 1], run[|run| - 1];
            (forall j :: 0 <= j < |run| ==> !Forgets(plan, run[j], id)) <==>
            (forall j :: 0 <= j < |init| ==> !Forgets(plan, init[j], id)) && !Forgets(plan, last, id)
  {
    var init := run[..|run| - 1];
    assert forall j :: 0 <= j < |init| ==> init[j] == run[j];
  }

  lemma DownInRunStep(stored: Statuses, plan: Plan, run: seq<Attempt>, id: string)
    requires run != []
    ensures var init, last := run[..|run| - 1], run[|run| - 1];
            DownInRun(stored, plan, run, id) <==>
            Marks(plan, last, id) || (DownInRun(stored, plan, init, id) && !Forgets(plan, last, id))
  {
    MarkedForStep(plan, run, id);
    ForgetsStep(plan, run, id);
  }

  /** After any run, whatever failed in it, a node is failed or skipped exactly if an attempt took
      it down, or it was down before, and no later attempt forgot it. */
  lemma {:induction false} RunDownIff(stored: Statuses, plan: Plan, run: seq<Attempt>, id: string)
    ensures Down(AfterAll(stored, plan, run), id) <==> DownInRun(stored, plan, run, id)
  {
    if run != [] {
      var init, last := run[..|run| - 1], run[|run| - 1];
      RunDownIff(stored, plan, init, id);
      DownAfter(AfterAll(stored, plan, init), plan, last, id);
      DownInRunStep(stored, plan, run, id);
    }
  }

  /** Every node reported anywhere in a run and everything reachable from one ends failed or
      skipped, if its status got written and no later attempt forgets it. */
  lemma {:induction false} RunTakesDownReachable(stored: Statuses, plan: Plan, run: seq<Attempt>, i: nat, id: string)
    requires i < |run| && (id == run[i].report.failedId || Reaches(plan, run[i].report.failedId, id))
    requires Lands(run[i], id) && forall j :: i < j < |run| ==> !Forgets(plan, run[j], id)
    ensures Down(AfterAll(stored, plan, run), id)
  {
    SkipsExactlyReachable(plan, run[i].report.failedId);
    assert MarkedFor(plan, run, id, i);
    RunDownIff(stored, plan, run, id);
  }

  ghost predicate AllRead(run: seq<Attempt>) {
    forall i :: 0 <= i < |run| ==> run[i].readOk
  }

  ghost predicate MarkedIn(plan: Plan, run: seq<Attempt>, id: string) {
    exists i :: 0 <= i < |run| && Marks(plan, run[i], id)
  }

  lemma {:induction false} ReadRunDownIff(stored: Statuses, plan: Plan, run: seq<Attempt>, id: string)
    requires AllRead(run)
    ensures Down(AfterAll(stored, plan, run), id) <==> MarkedIn(plan, run, id) || Down(stored, id)
  {
    RunDownIff(stored, plan, run, id);
    if i :| 0 <= i < |run| && Marks(plan, run[i], id) { assert MarkedFor(plan, run, id, i); }
  }

  /** The run takes `x` down, and neither it nor anything before it takes `y` down. */
  ghost predicate LeftOpen(stored: Statuses, plan: Plan, run: seq<Attempt>, x: string, y: string) {
    MarkedIn(plan, run, x) && Edge(plan, x, y) && !Down(stored, y) && !MarkedIn(plan, run, y)
  }

  lemma ClosedUnlessLeftOpen(stored: Statuses, s: Statuses, plan: Plan, run: seq<Attempt>)
    requires Closed(stored, plan) && forall id :: Down(s, id) <==> MarkedIn(plan, run, id) || Down(stored, id)
    ensures Closed(s, plan) <==> !exists x, y :: LeftOpen(stored, plan, run, x, y)
  {
    if x, y :| LeftOpen(stored, plan, run, x, y) { assert Down(s, x) && !Down(s, y); }
    if x, y :| Down(s, x) && Edge(plan, x, y) && !Down(s, y) { assert LeftOpen(stored, plan, run, x, y); }
  }

  /** Over any run that could read the store, partial writes and retries in any order: nothing that
      was down comes back, and a dependent is left open exactly if a node it depends on was written
      and it never was itself. */
  lemma {:induction false} RunClosedIff(stored: Statuses, plan: Plan, run: seq<Attempt>)
    requires Closed(stored, plan) && AllRead(run)
    ensures forall id :: Down(stored, id) ==> Down(AfterAll(stored, plan, run), id)
    ensures Closed(AfterAll(stored, plan, run), plan) <==> !exists x, y :: LeftOpen(stored, plan, run, x, y)
  {
    var s := AfterAll(stored, plan, run);
    forall id ensures Down(s, id) <==> MarkedIn(plan, run, id) || Down(stored, id) {
      ReadRunDownIff(stored, plan, run, id);
    }
    ClosedUnlessLeftOpen(stored, s, plan, run);
  }

  /** Some attempt reports the same node as attempt `i` and is written completely. */
  ghost predicate Completed(run: seq<Attempt>, i: nat)
    requires i < |run|
  {
    exists j :: 0 <= j < |run| && run[j].writeOk && run[j].report.failedId == run[i].report.failedId
  }

  lemma CompletedMarks(plan: Plan, run: seq<Attempt>, i: nat, x: string, y: string)
    requires i < |run| && Completed(run, i) && Marks(plan, run[i], x) && Edge(plan, x, y)
    ensures MarkedIn(plan, run, y)
  {
    var j :| 0 <= j < |run| && run[j].writeOk && run[j].report.failedId == run[i].report.failedId;
    AffectedClosed(plan, run[i].report.failedId, x, y);
    assert Marks(plan, run[j], y);
  }

  /** So no dependent is left open by a run in which every report is completed sometime, by itself
      or by a retry. */
  lemma {:induction false} RunStaysClosed(stored: Statuses, plan: Plan, run: seq<Attempt>)
    requires Closed(stored, plan) && AllRead(run) && forall i :: 0 <= i < |run| ==> Completed(run, i)
    ensures Closed(AfterAll(stored, plan, run), plan)
  {
    forall x, y ensures !LeftOpen(stored, plan, run, x, y) {
      if MarkedIn(plan, run, x) && Edge(plan, x, y) {
        var i :| 0 <= i < |run| && Marks(plan, run[i], x);
        CompletedMarks(plan, run, i, x, y);
      }
    }
    RunClosedIff(stored, plan, run);
  }

  // ---------- inputs that show it ----------

  function Reporting(id: string): Report {
    Report(id, "", 1, 1)
  }

  const CHAIN: Plan := [Node("a", []), Node("b", ["a"])]

  lemma ChainEdge()
    ensures Edge(CHAIN, "a", "b") && forall x, y :: Edge(CHAIN, x, y) ==> x == "a" && y == "b"
  {
    assert CHAIN[1] in CHAIN && CHAIN[1].dependsOn[0] == "a";
  }

  lemma LeavesOpen(stored: Statuses, plan: Plan, r: Report, written: set<string>, x: string, y: string)
    requires Closed(stored, plan) && Affected(plan, r, x) && Edge(plan, x, y)
    requires x in written && y !in written && !Down(stored, y)
    ensures !Closed(After(stored, plan, r, true, false, written), plan)
  {
    PartialWriteClosedIff(stored, plan, r, written);
  }

  /** Of a chain of two, the write got as far as the first. */
  lemma PartialWriteLeavesOpen()
    ensures Closed(map[], CHAIN) && !Closed(After(map[], CHAIN, Reporting("a"), true, false, {"a"}), CHAIN)
  {
    ChainEdge();
    LeavesOpen(map[], CHAIN, Reporting("a"), {"a"}, "a", "b");
  }

  lemma OutsideChain()
    ensures "x" !in Ids(CHAIN)
  {
    forall n | n in CHAIN ensures n.id != "x" {}
  }

  /** The counters of a report that could not read a store with one node outside the plan. */
  lemma CountersMissNode(ns: NodeStatus)
    ensures Counters(ComputedFrom(map["x" := ns], CHAIN, Reporting("a"), false), Reporting("a")) !=
            Counters(After(map["x" := ns], CHAIN, Reporting("a"), false, true, {}), Reporting("a"))
  {
    var stored := map["x" := ns];
    OutsideChain();
    assert "x" in stored.Keys && !(stored.Keys <= Ids(CHAIN) + {"a"});
    CountersDescribeStoreIff(stored, CHAIN, Reporting("a"), false);
  }

  lemma NothingReachedFrom(plan: Plan, from: string, id: string)
    requires forall x, y :: Edge(plan, x, y) ==> x != from
    ensures !Reaches(plan, from, id)
  {
    forall walk | IsWalk(plan, walk) ensures walk[0] != from { assert Edge(plan, walk[0], walk[1]); }
  }

  /** A skipped node is opened again by a report about another node that could not read the store,
      while the node it was skipped for, which the plan no longer has, stays failed. */
  lemma FailedReadLeavesOpen(stored: Statuses)
    requires stored.Keys == {"a", "b"} && stored["a"].phase == Failed && stored["b"].phase == Skipped
    ensures Closed(stored, [Node("b", ["a"])])
    ensures !Closed(After(stored, [Node("b", ["a"])], Reporting("c"), false, true, {}), [Node("b", ["a"])])
  {
    var plan := [Node("b", ["a"])];
    assert plan[0] in plan && plan[0].dependsOn[0] == "a";
    assert Edge(plan, "a", "b") && forall x, y :: Edge(plan, x, y) ==> x == "a" && y == "b";
    NothingReachedFrom(plan, "c", "a");
    NothingReachedFrom(plan, "c", "b");
    SkipsExactlyReachable(plan, "c");
    FailedReadClosedIff(stored, plan, Reporting("c"));
    assert "a" !in Ids(plan) && Down(stored, "a");
  }
}
