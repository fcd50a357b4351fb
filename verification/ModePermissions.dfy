/** What the user of the router allowed, set against what the rejection rules enforce when modes are
    scored: the permissions as flags of their own, and the latency ceiling as the user stated it.
 */
module ModePermissions {
  import opened ModeRouter
  import opened Wrappers

  /** The user has withheld the capability the mode stands for. */
  predicate Forbidden(mode: Mode, s: Signals) {
    match mode
    case SandboxExecution => !s.allowSandbox
    case ResearchV2 => !s.allowResearch
    case ReactTool => !s.allowTools
    case _ => false
  }

  /** The request was found to need that capability. */
  predicate Required(mode: Mode, s: Signals) {
    match mode
    case SandboxExecution => s.requiresSandbox
    case ResearchV2 => s.requiresResearch
    case ReactTool => s.requiresTools
    case _ => false
  }

  function SelectedMode(s: Signals, p: Policy, legacy: Mode): Mode {
    Selected(Ranked(s, p, legacy), p).selected
  }

  // ---------- a policy that leaves one mode ----------

  /** More than the budget. */
  function Price(s: Signals): real {
    if s.budgetUsd > 0.0 then s.budgetUsd + 1.0 else 1.0
  }

  /** A policy under which `mode` is free and takes `latencyMs`, and any other mode is too dear. */
  function Only(mode: Mode, s: Signals, latencyMs: real): Policy {
    Policy(map[], (map m | m in MODES :: Price(s))[mode := 0.0], map[mode := latencyMs])
  }

  lemma OnlyEstimates(mode: Mode, s: Signals, latencyMs: real, m: Mode)
    ensures EstimatedCost(Only(mode, s, latencyMs), m) == if m == mode then 0.0 else Price(s)
    ensures EstimatedLatency(Only(mode, s, latencyMs), mode) == latencyMs
  {
    EveryModeListed(m);
  }

  lemma OnlyAdmits(mode: Mode, s: Signals, latencyMs: real, m: Mode)
    ensures Admitted(m, s, Only(mode, s, latencyMs)) <==>
            m == mode && (s.maxLatencyMs > 0 ==> Truncated(latencyMs) <= s.maxLatencyMs)
              && (Forbidden(mode, s) ==> !Required(mode, s))
  {
    OnlyEstimates(mode, s, latencyMs, m);
  }

  lemma OnlySelects(mode: Mode, s: Signals, latencyMs: real, legacy: Mode)
    requires s.maxLatencyMs > 0 ==> Truncated(latencyMs) <= s.maxLatencyMs
    requires Forbidden(mode, s) ==> !Required(mode, s)
    ensures Admitted(mode, s, Only(mode, s, latencyMs))
    ensures SelectedMode(s, Only(mode, s, latencyMs), legacy) == mode
  {
    var p := Only(mode, s, latencyMs);
    OnlyAdmits(mode, s, latencyMs, mode);
    SelectionIsAdmitted(s, p, legacy);
    OnlyAdmits(mode, s, latencyMs, SelectedMode(s, p, legacy));
  }

  // ---------- permissions ----------

  /** No policy and no legacy mode can make the scoring select a mode the user forbids. */
  ghost predicate NeverSelectsForbidden(s: Signals) {
    forall p: Policy, legacy: Mode :: !Forbidden(SelectedMode(s, p, legacy), s)
  }

  /** Scoring keeps to the user's permissions, whatever the policy, exactly if it was found that the
      request needs every capability the user withholds: only then do the rules look at
      the permission. */
  lemma NeverSelectsForbiddenIff(s: Signals)
    ensures NeverSelectsForbidden(s) <==> forall mode :: Forbidden(mode, s) ==> Required(mode, s)
  {
    if forall mode :: Forbidden(mode, s) ==> Required(mode, s) {
      forall p: Policy, legacy: Mode ensures !Forbidden(SelectedMode(s, p, legacy), s) {
        SelectionIsAdmitted(s, p, legacy);
        assert Forbidden(SelectedMode(s, p, legacy), s) ==> Required(SelectedMode(s, p, legacy), s);
      }
    } else {
      var mode :| Forbidden(mode, s) && !Required(mode, s);
      OnlySelects(mode, s, 0.0, DirectAnswer);
      assert Forbidden(SelectedMode(s, Only(mode, s, 0.0), DirectAnswer), s);
    }
  }

  lemma PlainIsSelected(s: Signals, p: Policy, best: Mode)
    requires IsPlain(s, p, best)
    ensures SelectedMode(s, p, DirectAnswer) == best
  {
    PlainSelectsBest(s, p, best);
  }

  /** A plain request with research withheld, and a policy with a base score for research: the
      router selects research all the same. */
  lemma ForbiddenModeSelected() returns (s: Signals, p: Policy)
    ensures IsPlain(s, p, ResearchV2) && !s.allowResearch
    ensures SelectedMode(s, p, DirectAnswer) == ResearchV2 && Forbidden(ResearchV2, s)
  {
    s, p := PlainSignals(false), PlainPolicy(ResearchV2);
    PlainRequest(ResearchV2, false);
    PlainIsSelected(s, p, ResearchV2);
  }

  // ---------- the latency ceiling ----------

  const LEAST_CEILING_MS := 30000

  /** The ceiling the signals carry for the one the user states. */
  function EnforcedCeiling(userMs: int): int {
    if userMs > LEAST_CEILING_MS then userMs else LEAST_CEILING_MS
  }

  /** What the user asked for: the budget, the ceiling if one is stated, and the permissions. */
  predicate AsAsked(mode: Mode, s: Signals, userMs: int, p: Policy) {
    && (if s.budgetUsd > 0.0 then EstimatedCost(p, mode) <= s.budgetUsd else EstimatedCost(p, mode) <= 0.01)
    && (userMs > 0 ==> Truncated(EstimatedLatency(p, mode)) <= userMs)
    && !Forbidden(mode, s)
  }

  /** Under every policy that lets some mode pass, the selected mode is as the user asked. */
  ghost predicate AlwaysAsAsked(s: Signals, userMs: int) {
    forall p: Policy, legacy: Mode ::
      (exists mode :: Admitted(mode, s, p)) ==> AsAsked(SelectedMode(s, p, legacy), s, userMs, p)
  }

  /** Scoring gives users what they asked for, whatever the policy, exactly if they state no
      ceiling below thirty seconds and withhold no capability the request was not found to need. */
  lemma AlwaysAsAskedIff(s: Signals, userMs: int)
    requires s.maxLatencyMs == EnforcedCeiling(userMs)
    ensures AlwaysAsAsked(s, userMs) <==>
            (userMs <= 0 || LEAST_CEILING_MS <= userMs) && forall mode :: Forbidden(mode, s) ==> Required(mode, s)
  {
    if 0 < userMs < LEAST_CEILING_MS {
      OnlySelects(DirectAnswer, s, 30000.0, DirectAnswer);
      assert !AsAsked(SelectedMode(s, Only(DirectAnswer, s, 30000.0), DirectAnswer), s, userMs,
                      Only(DirectAnswer, s, 30000.0));
    } else if mode :| Forbidden(mode, s) && !Required(mode, s) {
      OnlySelects(mode, s, 0.0, DirectAnswer);
      assert !AsAsked(SelectedMode(s, Only(mode, s, 0.0), DirectAnswer), s, userMs, Only(mode, s, 0.0));
    } else {
      forall p: Policy, legacy: Mode | exists mode :: Admitted(mode, s, p)
        ensures AsAsked(SelectedMode(s, p, legacy), s, userMs, p)
      {
        SelectionIsAdmitted(s, p, legacy);
        assert Forbidden(SelectedMode(s, p, legacy), s) ==> Required(SelectedMode(s, p, legacy), s);
      }
    }
  }

  /** A stated ceiling of one second under which a mode that takes thirty is selected. */
  lemma CeilingIgnored() returns (s: Signals, p: Policy)
    ensures s.maxLatencyMs == EnforcedCeiling(1000)
    ensures SelectedMode(s, p, DirectAnswer) == DirectAnswer && EstimatedLatency(p, DirectAnswer) == 30000.0
    ensures Admitted(DirectAnswer, s, p) && !AsAsked(DirectAnswer, s, 1000, p)
  {
    s := PlainSignals(true);
    p := Only(DirectAnswer, s, 30000.0);
    OnlyEstimates(DirectAnswer, s, 30000.0, DirectAnswer);
    OnlySelects(DirectAnswer, s, 30000.0, DirectAnswer);
  }
}
