/** Planning a mode from end to end: a keyword's pick or else the scoring, then the classifier where
    it is switched on, has a reason to be asked and the pick is not settled already.
 */
module ModePlanning {
  import opened ModeArbiter
  import opened ModeExecution
  import opened ModePermissions
  import opened ModeRouter
  import opened Wrappers

  /** `semantic` is the score of the complexity words, `userMs` the latency ceiling the user states. */
  datatype Request = Request(signals: Signals, semantic: real, userMs: int)

  /** The settings of the classifier; `on` stands for its switches together. */
  datatype Classifier = Classifier(on: bool, minGap: real, onNoClearWinner: bool, onConflict: bool, onHighRisk: bool,
                                   onMultiAdvanced: bool)

  datatype Trigger =
    | NoClearWinner | SignalConflict | HighRisk | ManyAdvanced | SuspiciousDirect | SemanticConflict
    | ResearchFits | AdvancedIntent | SandboxUnderReview

  const HIGH_RISK := {SandboxExecution, SwarmWorkflow, ResearchV2}

  const DELIBERATE := {ResearchV2, Debate, TreeOfThoughts, Reflection, SwarmWorkflow}

  const ADVANCED := DELIBERATE + {DagWorkflow, ReactTool, SandboxExecution}

  // ---------- when the classifier is asked ----------

  predicate Contender(c: Candidate, modes: set<Mode>) {
    !c.rejected && c.score >= 0.3 && c.mode in modes
  }

  function Contenders(list: seq<Candidate>, modes: set<Mode>): nat {
    if list == [] then 0
    else Contenders(list[..|list| - 1], modes) + if Contender(list[|list| - 1], modes) then 1 else 0
  }

  predicate Conflicting(s: Signals) {
    (s.requiresResearch && 0.0 < s.budgetUsd < 0.01) || (s.requiresCitations && !s.allowResearch)
  }

  function TriggerFor(r: Request, list: seq<Candidate>, c: Classifier): Option<Trigger> {
    if |list| < 2 then None
    else if c.onNoClearWinner && 0.0 <= list[0].score - list[1].score < c.minGap then Some(NoClearWinner)
    else if c.onConflict && Conflicting(r.signals) then Some(SignalConflict)
    else if c.onHighRisk && (exists i :: 0 <= i < |list| && Contender(list[i], HIGH_RISK)) then Some(HighRisk)
    else if c.onMultiAdvanced && Contenders(list, DELIBERATE) >= 3 then Some(ManyAdvanced)
    else if r.semantic > 0.5 && list[0].mode == DirectAnswer then Some(SuspiciousDirect)
    else if r.semantic > 0.7 then Some(SemanticConflict)
    else if r.signals.requiresCitations && r.signals.allowResearch then Some(ResearchFits)
    else if c.onMultiAdvanced && Contenders(list, DELIBERATE + {DagWorkflow}) >= 2 then Some(AdvancedIntent)
    else if r.signals.sandboxNeed > 0.6 || r.signals.requiresSandbox then Some(SandboxUnderReview)
    else None
  }

  method CountContenders(list: seq<Candidate>, modes: set<Mode>) returns (n: nat)
    ensures n == Contenders(list, modes)
  {
    n := 0;
    for i := 0 to |list|
      invariant n == Contenders(list[..i], modes)
    {
      assert list[..i + 1][..i] == list[..i];
      if list[i].rejected || list[i].score < 0.3 {
        continue;
      }
      if list[i].mode in modes {
        n := n + 1;
      }
    }
    assert list[..|list|] == list;
  }

  method CheckClassifierConditions(r: Request, list: seq<Candidate>, c: Classifier) returns (trigger: Option<Trigger>)
    ensures trigger == TriggerFor(r, list, c)
  {
    if |list| < 2 {
      return None;
    }
    if c.minGap > 0.0 {
      var gap := list[0].score - list[1].score;
      if gap >= 0.0 && gap < c.minGap && c.onNoClearWinner {
        return Some(NoClearWinner);
      }
    }
    if c.onConflict {
      if r.signals.requiresResearch && r.signals.budgetUsd > 0.0 && r.signals.budgetUsd < 0.01 {
        return Some(SignalConflict);
      }
      if r.signals.requiresCitations && !r.signals.allowResearch {
        return Some(SignalConflict);
      }
    }
    if c.onHighRisk {
      for i := 0 to |list|
        invariant forall k :: 0 <= k < i ==> !Contender(list[k], HIGH_RISK)
      {
        if !list[i].rejected && list[i].mode in HIGH_RISK && list[i].score >= 0.3 {
          return Some(HighRisk);
        }
      }
    }
    if c.onMultiAdvanced {
      var advanced := CountContenders(list, DELIBERATE);
      if advanced >= 3 {
        return Some(ManyAdvanced);
      }
    }
    if r.semantic > 0.5 {
      if list[0].mode == DirectAnswer {
        return Some(SuspiciousDirect);
      }
      if r.semantic > 0.7 {
        return Some(SemanticConflict);
      }
    }
    if r.signals.requiresCitations && r.signals.allowResearch {
      return Some(ResearchFits);
    }
    if c.onMultiAdvanced {
      var advanced := CountContenders(list, DELIBERATE + {DagWorkflow});
      if advanced >= 2 {
        return Some(AdvancedIntent);
      }
    }
    if r.signals.sandboxNeed > 0.6 || r.signals.requiresSandbox {
      return Some(SandboxUnderReview);
    }
    return None;
  }

  predicate AllAdvancedRejected(list: seq<Candidate>) {
    && (exists i :: 0 <= i < |list| && list[i].mode in ADVANCED)
    && forall i :: 0 <= i < |list| && list[i].mode in ADVANCED ==> list[i].rejected
  }

  /** Here the ceiling counts as the user states it. */
  predicate Consulted(selected: Mode, list: seq<Candidate>, r: Request, p: Policy, c: Classifier) {
    && c.on && TriggerFor(r, list, c).Some? && !AllAdvancedRejected(list)
    && (r.signals.budgetUsd > 0.0 ==> EstimatedCost(p, selected) <= r.signals.budgetUsd)
    && (r.userMs > 0 ==> Truncated(EstimatedLatency(p, selected)) <= r.userMs)
  }

  /** The mode after the answer, if the classifier is heard and gives one. */
  function Reviewed(selected: Mode, list: seq<Candidate>, heard: bool, answer: Option<Opinion>): Mode {
    if heard && answer.Some? then Arbitrated(selected, list, answer.value).0 else selected
  }

  method ApplyClassifier(selected: Mode, list: seq<Candidate>, r: Request, p: Policy, c: Classifier,
                         answer: Option<Opinion>) returns (m: Mode)
    ensures m == Reviewed(selected, list, Consulted(selected, list, r, p, c), answer)
  {
    var trigger := CheckClassifierConditions(r, list, c);
    if trigger == None || !c.on {
      return selected;
    }
    var advanced, rejected := 0, 0;
    for i := 0 to |list|
      invariant rejected <= advanced
      invariant advanced > 0 <==> exists k :: 0 <= k < i && list[k].mode in ADVANCED
      invariant rejected == advanced <==> forall k :: 0 <= k < i && list[k].mode in ADVANCED ==> list[k].rejected
    {
      if list[i].mode !in ADVANCED {
        continue;
      }
      advanced := advanced + 1;
      if list[i].rejected {
        rejected := rejected + 1;
      }
    }
    if advanced > 0 && rejected == advanced {
      return selected;
    }
    if r.signals.budgetUsd > 0.0 && EstimatedCost(p, selected) > r.signals.budgetUsd {
      return selected;
    }
    if r.userMs > 0 && Truncated(EstimatedLatency(p, selected)) > r.userMs {
      return selected;
    }
    match answer
    case None => m := selected;
    case Some(o) => var merged; m, merged := Arbitrate(selected, list, o);
  }

  // ---------- the planned mode ----------

  /** A keyword's pick goes unreviewed if it exceeds the budget or the ceiling of the signals, or if
      the user forbids it. */
  predicate Constrained(pick: Mode, s: Signals, p: Policy) {
    || (s.budgetUsd > 0.0 && EstimatedCost(p, pick) > s.budgetUsd)
    || (s.maxLatencyMs > 0 && Truncated(EstimatedLatency(p, pick)) > s.maxLatencyMs)
    || Forbidden(pick, s)
  }

  predicate Heard(keyword: Option<Mode>, r: Request, p: Policy, legacy: Mode, c: Classifier) {
    && (keyword.Some? ==> !Constrained(keyword.value, r.signals, p))
    && Consulted(Picked(keyword, r.signals, p, legacy), Shortlist(keyword, r.signals, p, legacy), r, p, c)
  }

  function Planned(keyword: Option<Mode>, r: Request, p: Policy, legacy: Mode, c: Classifier,
                   answer: Option<Opinion>): Mode {
    Reviewed(Picked(keyword, r.signals, p, legacy), Shortlist(keyword, r.signals, p, legacy),
             Heard(keyword, r, p, legacy, c), answer)
  }

  method PlanMode(keyword: Option<Mode>, r: Request, p: Policy, legacy: Mode, c: Classifier, answer: Option<Opinion>)
    returns (m: Mode)
    ensures m == Planned(keyword, r, p, legacy, c, answer)
  {
    match keyword
    case Some(pick) =>
      var candidates := BuildKeywordCandidates(pick, p);
      var budgetTooTight := r.signals.budgetUsd > 0.0 && EstimatedCost(p, pick) > r.signals.budgetUsd;
      var latencyTooTight :=
        r.signals.maxLatencyMs > 0 && Truncated(EstimatedLatency(p, pick)) > r.signals.maxLatencyMs;
      var userBlockedPick := (pick == SandboxExecution && !r.signals.allowSandbox) ||
                             (pick == ResearchV2 && !r.signals.allowResearch) ||
                             (pick == ReactTool && !r.signals.allowTools);
      assert userBlockedPick == Forbidden(pick, r.signals);
      m := pick;
      if !budgetTooTight && !latencyTooTight && !userBlockedPick {
        m := ApplyClassifier(pick, candidates, r, p, c, answer);
      }
    case None =>
      var selection, candidates := SelectPlannedMode(r.signals, p, legacy);
      m := ApplyClassifier(selection.selected, candidates[..], r, p, c, answer);
  }

  // ---------- which modes can be planned ----------

  lemma ReviewedIff(selected: Mode, list: seq<Candidate>, heard: bool, m: Mode)
    requires Listed(list)
    ensures (exists answer :: Reviewed(selected, list, heard, answer) == m) <==>
            m == selected || (heard && WithinReach(list, m))
  {
    if m == selected {
      assert Reviewed(selected, list, heard, None) == m;
    } else if heard && WithinReach(list, m) {
      var o := AnswerFor(selected, list, m);
      assert Reviewed(selected, list, heard, Some(o)) == m;
    } else {
      forall answer: Option<Opinion> ensures Reviewed(selected, list, heard, answer) != m {
        if answer.Some? { OutcomeWithinReach(selected, list, answer.value); }
      }
    }
  }

  /** With everything but the classifier's answer given, the modes that can be planned are exactly
      the picked one and, if the classifier is heard, those within its reach. */
  lemma PlannedIff(keyword: Option<Mode>, r: Request, p: Policy, legacy: Mode, c: Classifier, m: Mode)
    ensures (exists answer :: Planned(keyword, r, p, legacy, c, answer) == m) <==>
            m == Picked(keyword, r.signals, p, legacy) ||
            (Heard(keyword, r, p, legacy, c) && WithinReach(Shortlist(keyword, r.signals, p, legacy), m))
  {
    var selected, list := Picked(keyword, r.signals, p, legacy), Shortlist(keyword, r.signals, p, legacy);
    ShortlistIsListed(keyword, r.signals, p, legacy);
    ReviewedIff(selected, list, Heard(keyword, r, p, legacy, c), m);
    forall answer
      ensures Planned(keyword, r, p, legacy, c, answer) ==
              Reviewed(selected, list, Heard(keyword, r, p, legacy, c), answer)
    {
    }
  }

  /** Behind a keyword these are its pick and, if the classifier is heard, the mode put behind it. */
  lemma KeywordPlannedIff(pick: Mode, r: Request, p: Policy, legacy: Mode, c: Classifier, m: Mode)
    ensures (exists answer :: Planned(Some(pick), r, p, legacy, c, answer) == m) <==>
            m == pick || (Heard(Some(pick), r, p, legacy, c) && m == KeywordFallback(pick))
  {
    PlannedIff(Some(pick), r, p, legacy, c, m);
    KeywordReach(pick, p, m);
  }

  /** A keyword's list holds no rejected candidate, so what keeps the classifier from being heard is
      the pick alone. */
  lemma HeardBehindKeywordIff(pick: Mode, r: Request, p: Policy, legacy: Mode, c: Classifier)
    ensures Heard(Some(pick), r, p, legacy, c) <==>
            && c.on && TriggerFor(r, KeywordCandidates(pick, p), c).Some? && !Constrained(pick, r.signals, p)
            && (r.userMs > 0 ==> Truncated(EstimatedLatency(p, pick)) <= r.userMs)
  {
    var list := KeywordCandidates(pick, p);
    assert forall i :: 0 <= i < |list| ==> !list[i].rejected;
  }

  // ---------- permissions ----------

  /** No policy, classifier, answer or legacy mode can get a mode planned that the user forbids. */
  ghost predicate NeverPlansForbidden(keyword: Option<Mode>, r: Request) {
    forall p, legacy, c, answer :: !Forbidden(Planned(keyword, r, p, legacy, c, answer), r.signals)
  }

  /** Every mode at no cost and at once. */
  const FREE := Policy(map[], map m | m in MODES :: 0.0, map m | m in MODES :: 0.0)

  const EAGER := Classifier(true, 1.0, true, false, false, false)

  lemma FreeEstimates(m: Mode)
    ensures EstimatedCost(FREE, m) == 0.0 && EstimatedLatency(FREE, m) == 0.0
  {
    EveryModeListed(m);
  }

  lemma EagerIsHeard(pick: Mode, r: Request)
    requires !Forbidden(pick, r.signals) && KeywordFallback(pick) != pick
    ensures Heard(Some(pick), r, FREE, DirectAnswer, EAGER)
  {
    FreeEstimates(pick);
    HeardBehindKeywordIff(pick, r, FREE, DirectAnswer, EAGER);
  }

  lemma ScoredPlanAdmitted(r: Request, p: Policy, legacy: Mode, c: Classifier, answer: Option<Opinion>)
    ensures var m := Planned(None, r, p, legacy, c, answer);
            m == SelectedMode(r.signals, p, legacy) || Admitted(m, r.signals, p)
  {
    var m := Planned(None, r, p, legacy, c, answer);
    PlannedIff(None, r, p, legacy, c, m);
    if WithinReach(Ranked(r.signals, p, legacy), m) { AdmittedWithinReach(r.signals, p, legacy, m); }
  }

  lemma KeywordNeverForbiddenIff(pick: Mode, r: Request)
    ensures NeverPlansForbidden(Some(pick), r) <==>
            !Forbidden(pick, r.signals) && !Forbidden(KeywordFallback(pick), r.signals)
  {
    assert Planned(Some(pick), r, FREE, DirectAnswer, EAGER, None) == pick;
    if !Forbidden(pick, r.signals) && Forbidden(KeywordFallback(pick), r.signals) {
      EagerIsHeard(pick, r);
      KeywordPlannedIff(pick, r, FREE, DirectAnswer, EAGER, KeywordFallback(pick));
    } else {
      forall p, legacy, c, answer
        ensures Planned(Some(pick), r, p, legacy, c, answer) in {pick, KeywordFallback(pick)}
      {
        KeywordPlannedIff(pick, r, p, legacy, c, Planned(Some(pick), r, p, legacy, c, answer));
      }
    }
  }

  lemma ScoringNeverForbiddenIff(r: Request)
    ensures NeverPlansForbidden(None, r) <==> forall mode :: Forbidden(mode, r.signals) ==> Required(mode, r.signals)
  {
    NeverSelectsForbiddenIff(r.signals);
    if NeverSelectsForbidden(r.signals) {
      forall p, legacy, c, answer ensures !Forbidden(Planned(None, r, p, legacy, c, answer), r.signals) {
        ScoredPlanAdmitted(r, p, legacy, c, answer);
        assert !Forbidden(SelectedMode(r.signals, p, legacy), r.signals);
      }
    } else {
      var p, legacy :| Forbidden(SelectedMode(r.signals, p, legacy), r.signals);
      assert Planned(None, r, p, legacy, EAGER, None) == SelectedMode(r.signals, p, legacy);
    }
  }

  /** Planning keeps to the user's permissions, whatever else, exactly if: without a keyword, the
      request requires every capability the user withholds; behind a keyword, the user allows both
      its pick and the mode put behind it, however little the request requires. */
  lemma NeverPlansForbiddenIff(keyword: Option<Mode>, r: Request)
    ensures NeverPlansForbidden(keyword, r) <==>
            match keyword
            case Some(pick) => !Forbidden(pick, r.signals) && !Forbidden(KeywordFallback(pick), r.signals)
            case None => forall mode :: Forbidden(mode, r.signals) ==> Required(mode, r.signals)
  {
    match keyword
    case Some(pick) => KeywordNeverForbiddenIff(pick, r);
    case None => ScoringNeverForbiddenIff(r);
  }

  // ---------- budget, ceiling and permissions together ----------

  /** Under every policy that lets some mode pass, what is planned is as the user asked. */
  ghost predicate AlwaysPlansAsAsked(keyword: Option<Mode>, r: Request) {
    forall p, legacy, c, answer ::
      (exists mode :: Admitted(mode, r.signals, p)) ==>
        AsAsked(Planned(keyword, r, p, legacy, c, answer), r.signals, r.userMs, p)
  }

  lemma KeywordTooDear(pick: Mode, r: Request)
    requires r.signals.maxLatencyMs == EnforcedCeiling(r.userMs)
    ensures !AlwaysPlansAsAsked(Some(pick), r)
  {
    var other := if pick == DirectAnswer then RagAnswer else DirectAnswer;
    var p := Only(other, r.signals, 0.0);
    OnlyAdmits(other, r.signals, 0.0, other);
    OnlyEstimates(other, r.signals, 0.0, pick);
    assert !AsAsked(Planned(Some(pick), r, p, DirectAnswer, EAGER, None), r.signals, r.userMs, p);
  }

  lemma ScoredPlanAsAsked(r: Request, p: Policy, legacy: Mode, c: Classifier, answer: Option<Opinion>)
    requires r.signals.maxLatencyMs == EnforcedCeiling(r.userMs) && exists mode :: Admitted(mode, r.signals, p)
    requires r.userMs <= 0 || LEAST_CEILING_MS <= r.userMs
    requires forall mode :: Forbidden(mode, r.signals) ==> Required(mode, r.signals)
    ensures AsAsked(Planned(None, r, p, legacy, c, answer), r.signals, r.userMs, p)
  {
    var m := Planned(None, r, p, legacy, c, answer);
    ScoredPlanAdmitted(r, p, legacy, c, answer);
    SelectionIsAdmitted(r.signals, p, legacy);
    assert Admitted(m, r.signals, p) && (Forbidden(m, r.signals) ==> Required(m, r.signals));
  }

  lemma ScoringFallsShort(r: Request)
    requires !AlwaysAsAsked(r.signals, r.userMs)
    ensures !AlwaysPlansAsAsked(None, r)
  {
    var p: Policy, legacy: Mode :| (exists mode :: Admitted(mode, r.signals, p)) &&
                                   !AsAsked(SelectedMode(r.signals, p, legacy), r.signals, r.userMs, p);
    assert Planned(None, r, p, legacy, EAGER, None) == SelectedMode(r.signals, p, legacy);
  }

  /** Users get what they asked for, whatever the policy, the classifier and its answer, exactly if
      no keyword matches, they state no ceiling below thirty seconds and withhold no capability the
      request was not found to need. A keyword's pick is planned at any price. */
  lemma AlwaysPlansAsAskedIff(keyword: Option<Mode>, r: Request)
    requires r.signals.maxLatencyMs == EnforcedCeiling(r.userMs)
    ensures AlwaysPlansAsAsked(keyword, r) <==>
            && keyword == None && (r.userMs <= 0 || LEAST_CEILING_MS <= r.userMs)
            && forall mode :: Forbidden(mode, r.signals) ==> Required(mode, r.signals)
  {
    match keyword
    case Some(pick) => KeywordTooDear(pick, r);
    case None =>
      AlwaysAsAskedIff(r.signals, r.userMs);
      if AlwaysAsAsked(r.signals, r.userMs) {
        forall p, legacy, c, answer | exists mode :: Admitted(mode, r.signals, p)
          ensures AsAsked(Planned(None, r, p, legacy, c, answer), r.signals, r.userMs, p)
        {
          ScoredPlanAsAsked(r, p, legacy, c, answer);
        }
      } else {
        ScoringFallsShort(r);
      }
  }

  // ---------- the settings the router ships with ----------

  /** The shipped settings, switched on. */
  const SHIPPED_CLASSIFIER := Classifier(true, 0.10, true, true, true, true)

  const KEYWORD_PICKS := {SandboxExecution, Debate, Reflection, TreeOfThoughts, ResearchV2, ReactTool, DagWorkflow}

  /** Behind a keyword the shipped settings give a reason to ask for every pick but tools and
      workflows; for these two, exactly if citations or a sandbox, research on next to no budget, or
      much semantic complexity are in play. */
  lemma KeywordTriggersIff(pick: Mode, r: Request, p: Policy)
    requires pick in KEYWORD_PICKS
    ensures TriggerFor(r, KeywordCandidates(pick, p), SHIPPED_CLASSIFIER).Some? <==>
            || pick !in {ReactTool, DagWorkflow} || r.signals.requiresCitations
            || r.signals.sandboxNeed > 0.6 || r.signals.requiresSandbox
            || (r.signals.requiresResearch && 0.0 < r.signals.budgetUsd < 0.01) || r.semantic > 0.7
  {
    var list := KeywordCandidates(pick, p);
    assert |list| == 2 && list[..1][..0] == [] && list[..2] == list;
    var workflows := DELIBERATE + {DagWorkflow};
    assert Contenders(list[..1], workflows) == if pick in workflows then 1 else 0;
    assert Contenders(list, workflows) == (if pick in workflows then 1 else 0)
                                          + if KeywordFallback(pick) in workflows then 1 else 0;
    assert Contenders(list[..1], DELIBERATE) <= 1;
    assert Contenders(list, DELIBERATE) <= 2;
    assert list[0].mode == pick && Contender(list[0], HIGH_RISK) == (pick in HIGH_RISK);
  }

  lemma SandboxPlannedIff(r: Request, p: Policy, legacy: Mode, c: Classifier)
    ensures (forall answer :: Planned(Some(SandboxExecution), r, p, legacy, c, answer) == SandboxExecution) <==>
            !Heard(Some(SandboxExecution), r, p, legacy, c)
    ensures forall answer :: Planned(Some(SandboxExecution), r, p, legacy, c, answer) in {SandboxExecution, ReactTool}
  {
    KeywordPlannedIff(SandboxExecution, r, p, legacy, c, ReactTool);
    forall answer | Planned(Some(SandboxExecution), r, p, legacy, c, answer) != SandboxExecution
      ensures Heard(Some(SandboxExecution), r, p, legacy, c)
      ensures Planned(Some(SandboxExecution), r, p, legacy, c, answer) == ReactTool
    {
      KeywordPlannedIff(SandboxExecution, r, p, legacy, c, Planned(Some(SandboxExecution), r, p, legacy, c, answer));
    }
  }

  lemma SandboxDecided(complexity: real, risk: string, f: Features, s: Signals, t: Table)
    requires LeadsAsShipped(t)
    ensures Decided(SandboxExecution, complexity, risk, f, s, t).executed == Runs(SandboxExecution) <==>
            s.allowSandbox && s.requiresSandbox
    ensures Decided(ReactTool, complexity, risk, f, s, t).executed != Runs(SandboxExecution)
  {
    assert Target(t, SandboxExecution, true) == Runs(DirectAnswer) == Target(t, ReactTool, true);
  }

  /** With the shipped table, a request that a keyword sends to the sandbox is executed there whatever
      the classifier answers, exactly if the user allows and the request requires the sandbox and the
      classifier is not heard. */
  lemma SandboxRunsIff(r: Request, p: Policy, legacy: Mode, c: Classifier, complexity: real, risk: string, f: Features)
    ensures (forall answer ::
               Decided(Planned(Some(SandboxExecution), r, p, legacy, c, answer), complexity, risk, f, r.signals,
                       SHIPPED).executed == Runs(SandboxExecution)) <==>
            && r.signals.allowSandbox && r.signals.requiresSandbox
            && !Heard(Some(SandboxExecution), r, p, legacy, c)
  {
    ShippedDoes();
    SandboxDecided(complexity, risk, f, r.signals, SHIPPED);
    SandboxPlannedIff(r, p, legacy, c);
    assert Planned(Some(SandboxExecution), r, p, legacy, c, None) == SandboxExecution;
  }

  // ---------- requests that go wrong ----------

  /** The user withholds tools, which the request requires. */
  function WithoutTools(): Request {
    Request(PlainSignals(true).(requiresTools := true, allowTools := false), 0.0, 30000)
  }

  lemma ToolsCanBePlanned(r: Request, c: Classifier) returns (o: Opinion)
    requires Heard(Some(SandboxExecution), r, FREE, DirectAnswer, c)
    ensures o.named == "" && Planned(Some(SandboxExecution), r, FREE, DirectAnswer, c, Some(o)) == ReactTool
  {
    var list := KeywordCandidates(SandboxExecution, FREE);
    ShortlistIsListed(Some(SandboxExecution), r.signals, FREE, DirectAnswer);
    assert list[1].mode == ReactTool;
    CloseToFirst(list, 1);
    FavouredIsTaken(SandboxExecution, list, list[1]);
    o := Favour(ReactTool);
  }

  /** A request a keyword sends to the sandbox, which the rules let pass; the shipped classifier
      answers with scores and names no mode, and the tool mode is planned, which the user forbids
      and the rules reject. */
  lemma KeywordPlanForbidden() returns (r: Request, o: Opinion)
    ensures r.signals.maxLatencyMs == EnforcedCeiling(r.userMs) && o.named == ""
    ensures Admitted(SandboxExecution, r.signals, FREE) && !Forbidden(SandboxExecution, r.signals)
    ensures Planned(Some(SandboxExecution), r, FREE, DirectAnswer, SHIPPED_CLASSIFIER, Some(o)) == ReactTool
    ensures !Admitted(ReactTool, r.signals, FREE) && Forbidden(ReactTool, r.signals)
  {
    r := WithoutTools();
    FreeEstimates(SandboxExecution);
    KeywordTriggersIff(SandboxExecution, r, FREE);
    HeardBehindKeywordIff(SandboxExecution, r, FREE, DirectAnswer, SHIPPED_CLASSIFIER);
    o := ToolsCanBePlanned(r, SHIPPED_CLASSIFIER);
  }

  /** The sandbox required and withheld: scoring never plans a forbidden mode for this request, and a
      keyword gets the sandbox planned under every policy, classifier and answer. */
  lemma KeywordOverridesUser() returns (r: Request)
    ensures Forbidden(SandboxExecution, r.signals) && NeverPlansForbidden(None, r)
    ensures forall p, legacy, c, answer :: Planned(Some(SandboxExecution), r, p, legacy, c, answer) == SandboxExecution
  {
    r := Request(PlainSignals(true).(requiresSandbox := true, allowSandbox := false), 0.0, 30000);
    NeverPlansForbiddenIff(None, r);
  }

  /** One dollar to spend, a debate that costs two and a direct answer for nothing: a keyword gets the
      debate planned. */
  lemma KeywordOverBudget(c: Classifier, answer: Option<Opinion>) returns (r: Request, p: Policy)
    ensures r.signals.budgetUsd == 1.0 && EstimatedCost(p, Debate) == 2.0 && Admitted(DirectAnswer, r.signals, p)
    ensures Planned(Some(Debate), r, p, DirectAnswer, c, answer) == Debate
  {
    r := Request(PlainSignals(true), 0.0, 30000);
    p := Only(DirectAnswer, r.signals, 0.0);
    OnlyEstimates(DirectAnswer, r.signals, 0.0, Debate);
    OnlyAdmits(DirectAnswer, r.signals, 0.0, DirectAnswer);
  }
}
