/** Planning and execution rule by rule: when the classifier is asked and heard, what comes of its answer,
    what stands behind a keyword, what is executed and when that takes an approval.
 */
module PlanningLaw {
  import opened ModeArbiter
  import opened ModeExecution
  import opened ModePermissions
  import opened ModePlanning
  import opened ModeRouter
  import opened Wrappers

  // ---------- when the classifier is asked ----------

  /** Places of the accepted candidates of these modes that score at least 0.3. */
  ghost function Strong(list: seq<Candidate>, modes: set<Mode>): set<nat> {
    set i: nat | i < |list| && !list[i].rejected && list[i].score >= 0.3 && list[i].mode in modes
  }

  lemma {:induction false} ContendersAreStrong(list: seq<Candidate>, modes: set<Mode>)
    ensures Contenders(list, modes) == |Strong(list, modes)|
  {
    if list == [] {
      assert Strong(list, modes) == {};
    } else {
      var n := |list| - 1;
      ContendersAreStrong(list[..n], modes);
      assert Strong(list, modes) == Strong(list[..n], modes) + if Contender(list[n], modes) then {n} else {};
    }
  }

  /** What gives a reason to ask, on a list of at least two. */
  ghost predicate Speaks(t: Trigger, r: Request, list: seq<Candidate>, c: Classifier)
    requires |list| >= 2
  {
    var s := r.signals;
    match t
    case NoClearWinner => c.onNoClearWinner && list[1].score <= list[0].score < list[1].score + c.minGap
    case SignalConflict =>
      c.onConflict && ((s.requiresResearch && 0.0 < s.budgetUsd < 0.01) || (s.requiresCitations && !s.allowResearch))
    case HighRisk => c.onHighRisk && Strong(list, {SandboxExecution, SwarmWorkflow, ResearchV2}) != {}
    case ManyAdvanced =>
      c.onMultiAdvanced && |Strong(list, {ResearchV2, Debate, TreeOfThoughts, Reflection, SwarmWorkflow})| >= 3
    case SuspiciousDirect => r.semantic > 0.5 && list[0].mode == DirectAnswer
    case SemanticConflict => r.semantic > 0.7
    case ResearchFits => s.requiresCitations && s.allowResearch
    case AdvancedIntent =>
      c.onMultiAdvanced
      && |Strong(list, {ResearchV2, Debate, TreeOfThoughts, Reflection, SwarmWorkflow, DagWorkflow})| >= 2
    case SandboxUnderReview => s.sandboxNeed > 0.6 || s.requiresSandbox
  }

  /** The order in which they are looked at. */
  function Turn(t: Trigger): nat {
    match t
    case NoClearWinner => 0
    case SignalConflict => 1
    case HighRisk => 2
    case ManyAdvanced => 3
    case SuspiciousDirect => 4
    case SemanticConflict => 5
    case ResearchFits => 6
    case AdvancedIntent => 7
    case SandboxUnderReview => 8
  }

  lemma RiskStands(list: seq<Candidate>)
    ensures (exists i :: 0 <= i < |list| && Contender(list[i], HIGH_RISK)) <==>
            Strong(list, {SandboxExecution, SwarmWorkflow, ResearchV2}) != {}
  {
    var strong := Strong(list, {SandboxExecution, SwarmWorkflow, ResearchV2});
    if i :| 0 <= i < |list| && Contender(list[i], HIGH_RISK) { assert i in strong; }
    if strong != {} {
      var i :| i in strong;
      assert Contender(list[i], HIGH_RISK);
    }
  }

  lemma {:induction false} CountsAreStrong(list: seq<Candidate>)
    ensures Contenders(list, DELIBERATE) ==
            |Strong(list, {ResearchV2, Debate, TreeOfThoughts, Reflection, SwarmWorkflow})|
    ensures Contenders(list, DELIBERATE + {DagWorkflow}) ==
            |Strong(list, {ResearchV2, Debate, TreeOfThoughts, Reflection, SwarmWorkflow, DagWorkflow})|
  {
    ContendersAreStrong(list, DELIBERATE);
    ContendersAreStrong(list, DELIBERATE + {DagWorkflow});
    assert DELIBERATE + {DagWorkflow} == {ResearchV2, Debate, TreeOfThoughts, Reflection, SwarmWorkflow, DagWorkflow};
  }

  lemma FirstToSpeak(r: Request, list: seq<Candidate>, c: Classifier, u: Trigger)
    requires |list| >= 2
    ensures match TriggerFor(r, list, c)
            case None => !Speaks(u, r, list, c)
            case Some(t) => Speaks(t, r, list, c) && (Turn(u) < Turn(t) ==> !Speaks(u, r, list, c))
  {
    RiskStands(list);
    CountsAreStrong(list);
  }

  /** The reason given is the first that speaks for it; without one the classifier is not asked. */
  lemma TriggerIs(r: Request, list: seq<Candidate>, c: Classifier, t: Trigger)
    ensures TriggerFor(r, list, c) == Some(t) <==>
            |list| >= 2 && Speaks(t, r, list, c) && forall u :: Turn(u) < Turn(t) ==> !Speaks(u, r, list, c)
  {
    if |list| >= 2 {
      forall u ensures match TriggerFor(r, list, c)
                       case None => !Speaks(u, r, list, c)
                       case Some(x) => Speaks(x, r, list, c) && (Turn(u) < Turn(x) ==> !Speaks(u, r, list, c))
      {
        FirstToSpeak(r, list, c, u);
      }
      assert forall x :: Turn(x) == Turn(t) ==> x == t;
    }
  }

  lemma AskedIff(r: Request, list: seq<Candidate>, c: Classifier)
    ensures TriggerFor(r, list, c).Some? <==> |list| >= 2 && exists t :: Speaks(t, r, list, c)
  {
    if |list| >= 2 {
      forall t ensures TriggerFor(r, list, c).None? ==> !Speaks(t, r, list, c) {
        FirstToSpeak(r, list, c, t);
      }
      FirstToSpeak(r, list, c, NoClearWinner);
    }
  }

  // ---------- when it is heard ----------

  /** Within a budget and a ceiling, each of which counts only if it is positive. */
  ghost predicate Affordable(mode: Mode, p: Policy, budgetUsd: real, ceilingMs: int) {
    && (budgetUsd > 0.0 ==> (if mode in p.costUsd then p.costUsd[mode] else 0.05) <= budgetUsd)
    && (ceilingMs > 0 ==> (if mode in p.latencyMs then p.latencyMs[mode] else 10000.0) < (ceilingMs + 1) as real)
  }

  lemma AffordableIff(mode: Mode, p: Policy, budgetUsd: real, ceilingMs: int)
    ensures Affordable(mode, p, budgetUsd, ceilingMs) <==>
            && (budgetUsd > 0.0 ==> EstimatedCost(p, mode) <= budgetUsd)
            && (ceilingMs > 0 ==> Truncated(EstimatedLatency(p, mode)) <= ceilingMs)
  {
  }

  ghost predicate Advanced(mode: Mode) {
    mode != DirectAnswer && mode != RagAnswer
  }

  /** Not every advanced mode of the list was rejected, unless there is none. */
  ghost predicate Open(list: seq<Candidate>) {
    (exists i :: 0 <= i < |list| && Advanced(list[i].mode)) ==>
      exists i :: 0 <= i < |list| && Advanced(list[i].mode) && !list[i].rejected
  }

  lemma OpenIff(list: seq<Candidate>)
    ensures Open(list) <==> !AllAdvancedRejected(list)
  {
    forall mode ensures Advanced(mode) <==> mode in ADVANCED {}
  }

  /** The classifier is heard if it is on and something speaks for asking it, unless every advanced mode of
      the list was rejected; if the picked mode keeps within what the user states; and behind a keyword
      also within the ceiling of the signals and what the user allows. */
  lemma HeardIff(keyword: Option<Mode>, r: Request, p: Policy, legacy: Mode, c: Classifier)
    ensures var selected, list := Picked(keyword, r.signals, p, legacy), Shortlist(keyword, r.signals, p, legacy);
            Heard(keyword, r, p, legacy, c) <==>
            && c.on && |list| >= 2 && (exists t :: Speaks(t, r, list, c)) && Open(list)
            && Affordable(selected, p, r.signals.budgetUsd, r.userMs)
            && (keyword.Some? ==> Affordable(selected, p, r.signals.budgetUsd, r.signals.maxLatencyMs)
                                  && !Forbidden(selected, r.signals))
  {
    var selected := Picked(keyword, r.signals, p, legacy);
    AffordableIff(selected, p, r.signals.budgetUsd, r.userMs);
    AffordableIff(selected, p, r.signals.budgetUsd, r.signals.maxLatencyMs);
    OpenIff(Shortlist(keyword, r.signals, p, legacy));
    AskedIff(r, Shortlist(keyword, r.signals, p, legacy), c);
  }

  // ---------- what comes of an answer ----------

  /** The mode after an answer that is heard: as selected if there is none, if it is a fallback, or if it
      names another mode than a selected sandbox; else the leader of the list with every score moved
      towards the answer's, unless that is a rejected one. */
  ghost predicate Answers(selected: Mode, list: seq<Candidate>, answer: Option<Opinion>, m: Mode) {
    match answer
    case None => m == selected
    case Some(o) =>
      if o.fallback || (selected == SandboxExecution && o.named !in {"", "sandbox_execution"}) then m == selected
      else exists moved ::
             && |moved| == |list| && (forall i :: 0 <= i < |list| ==> Moved(list[i], o.scores, moved[i]))
             && LedBy(moved, selected, m)
  }

  /** A candidate of the highest score decides. */
  ghost predicate LedBy(moved: seq<Candidate>, selected: Mode, m: Mode) {
    if moved == [] then m == selected
    else exists k :: && 0 <= k < |moved| && (forall i :: 0 <= i < |moved| ==> moved[i].score <= moved[k].score)
                     && m == if moved[k].rejected then selected else moved[k].mode
  }

  lemma MergedLeads(list: seq<Candidate>, moved: seq<Candidate>, merged: seq<Candidate>, selected: Mode)
    requires multiset(merged) == multiset(moved) && SortedBy(false, merged)
    ensures LedBy(moved, selected, LeaderOr(merged, selected))
  {
    assert |merged| == |moved| by { assert |multiset(merged)| == |multiset(moved)|; }
    if moved != [] {
      assert merged[0] in multiset(moved);
      var k :| 0 <= k < |moved| && moved[k] == merged[0];
      forall i | 0 <= i < |moved| ensures moved[i].score <= moved[k].score {
        assert moved[i] in multiset(merged);
        var j :| 0 <= j < |merged| && merged[j] == moved[i];
        assert j > 0 ==> !Better(false, merged[j], merged[0]);
      }
    }
  }

  lemma ArbitratedAnswers(selected: Mode, list: seq<Candidate>, o: Opinion)
    requires Listed(list)
    ensures Answers(selected, list, Some(o), Arbitrated(selected, list, o).0)
  {
    var moved := MergeMoves(list, o.scores);
    MergedIsSorted(list, o.scores);
    MergedLeads(list, moved, Merged(list, o.scores), selected);
  }

  /** The planned mode, from the picked one, the list, and whether the classifier is heard. */
  lemma PlanAnswers(keyword: Option<Mode>, r: Request, p: Policy, legacy: Mode, c: Classifier, answer: Option<Opinion>)
    ensures var selected, list := Picked(keyword, r.signals, p, legacy), Shortlist(keyword, r.signals, p, legacy);
            var m := Planned(keyword, r, p, legacy, c, answer);
            if Heard(keyword, r, p, legacy, c) then Answers(selected, list, answer, m) else m == selected
  {
    ShortlistIsListed(keyword, r.signals, p, legacy);
    if answer.Some? {
      ArbitratedAnswers(Picked(keyword, r.signals, p, legacy), Shortlist(keyword, r.signals, p, legacy), answer.value);
    }
  }

  // ---------- behind a keyword ----------

  /** The mode put second behind a keyword's pick. */
  const SECOND := map[SandboxExecution := ReactTool, ResearchV2 := DagWorkflow, TreeOfThoughts := Reflection,
                      Debate := TreeOfThoughts, Reflection := DagWorkflow, ReactTool := DirectAnswer,
                      DagWorkflow := DirectAnswer, RagAnswer := DirectAnswer, SwarmWorkflow := DirectAnswer]

  /** Behind a keyword stand its pick at 0.85 and a second mode at 0.40, neither of them judged. */
  lemma KeywordListIs(keyword: Mode, s: Signals, p: Policy, legacy: Mode)
    ensures var list := Shortlist(Some(keyword), s, p, legacy);
            && Picked(Some(keyword), s, p, legacy) == keyword
            && |list| == (if keyword in SECOND then 2 else 1)
            && list[0].mode == keyword && list[0].score == 0.85
            && (keyword in SECOND ==> list[1].mode == SECOND[keyword] && list[1].score == 0.40)
            && forall i :: 0 <= i < |list| ==>
                 && !list[i].rejected && list[i].reason == NoReason
                 && list[i].cost == if list[i].mode in p.costUsd then p.costUsd[list[i].mode] else 0.05
  {
  }

  // ---------- what is executed ----------

  lemma NamesAre()
    ensures seq(|MODES|, i requires 0 <= i < |MODES| => Name(MODES[i])) ==
            ["direct_answer", "rag_answer", "react_tool", "dag_workflow", "reflection", "tree_of_thoughts", "debate",
             "research_v2", "swarm_workflow", "sandbox_execution"]
  {
  }

  lemma {:induction false} NamedMode(name: string, modes: seq<Mode>)
    ensures match NamedAmong(name, modes)
            case None => forall m :: m in modes ==> name != Name(m)
            case Some(e) => e.Runs? && e.mode in modes && name == Name(e.mode)
  {
    if modes != [] && name != Name(modes[0]) {
      NamedMode(name, modes[1..]);
    }
  }

  /** Where a mode is sent by the name in its entry: to the mode or version that goes by it; if nobody does, to
      a direct answer if the user is in the way, and else to nothing. */
  ghost predicate SentBy(name: string, blocked: bool, e: Executed) {
    && (forall m :: name == Name(m) ==> e == Runs(m))
    && (name == "research_v1" ==> e == ResearchV1) && (name == "mode_disabled" ==> e == ModeDisabled)
    && (name != "research_v1" && name != "mode_disabled" && (forall m :: name != Name(m)) ==>
          e == if blocked then Runs(DirectAnswer) else ModeDisabled)
  }

  /** The name in the table's entry for a planned mode, empty if it has none. */
  function NameFor(t: Table, planned: Mode, blocked: bool): string {
    if Name(planned) !in t then ""
    else if blocked then t[Name(planned)].whenUserBlocks else t[Name(planned)].whenDisabled
  }

  lemma NoMode(name: string)
    requires name == "" || name == "research_v1" || name == "mode_disabled"
    ensures forall m :: name != Name(m)
  {
    forall m | name == Name(m) ensures false { NamedFinds(m); }
  }

  lemma NamedSends(name: string, blocked: bool)
    ensures SentBy(name, blocked, if Named(name).Some? then Named(name).value
                                  else if blocked then Runs(DirectAnswer) else ModeDisabled)
  {
    forall m | name == Name(m) ensures Named(name) == Some(Runs(m)) { NamedFinds(m); }
    NamedMode(name, MODES);
  }

  lemma TargetIsSent(t: Table, planned: Mode, blocked: bool)
    ensures SentBy(NameFor(t, planned, blocked), blocked, Target(t, planned, blocked))
  {
    NamedSends(NameFor(t, planned, blocked), blocked);
    NamedFinds(DirectAnswer);
    NoMode("");
  }

  /** What is executed, and why: the planned mode if its flag is on, the user allows it and the request calls
      for it; else what its entry says, but no sandbox that the user withholds. */
  lemma ExecutionTells(planned: Mode, complexity: real, risk: string, f: Features, s: Signals, t: Table)
    ensures var d := Decided(planned, complexity, risk, f, s, t);
            var blocked := !(Allowed(planned, s) && CalledFor(planned, s));
            if !blocked && Enabled(planned, f) then d.executed == Runs(planned) && d.cause == AsPlanned
            else exists e :: SentBy(NameFor(t, planned, blocked), blocked, e) &&
                   if e == Runs(SandboxExecution) && !s.allowSandbox
                   then d.executed == Runs(DirectAnswer) && d.cause == SandboxDisallowed
                   else d.executed == e && d.cause == if blocked then UserBlocks else FeatureOff
  {
    ExecutedOrTarget(planned, f, s, t);
    TargetIsSent(t, planned, true);
    TargetIsSent(t, planned, false);
  }

  /** When that takes an approval. */
  lemma ApprovalIff(planned: Mode, complexity: real, risk: string, f: Features, s: Signals, t: Table)
    ensures var d := Decided(planned, complexity, risk, f, s, t);
            d.requiresApproval <==>
            && d.cause != SandboxDisallowed
            && (complexity >= 0.60 || risk in {"high", "critical"} || s.requiresSandbox
                || planned == SandboxExecution || d.executed == Runs(SandboxExecution))
  {
  }
}
