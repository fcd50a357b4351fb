/** From the planned mode to the one that is executed: feature flags, the user's permissions, the
    fallback table of the policy, and the approval that goes with the decision.
 */
module ModeExecution {
  import opened ModePermissions
  import opened ModeRouter
  import opened Wrappers

  /** What can be executed; two outcomes are no routing modes. */
  datatype Executed = Runs(mode: Mode) | ResearchV1 | ModeDisabled

  datatype Features = Features(reflection: bool, treeOfThoughts: bool, debate: bool, researchV2: bool)

  /** The names of what to fall back to; empty for none. */
  datatype Fallbacks = Fallbacks(whenDisabled: string, whenUserBlocks: string)

  type Table = map<string, Fallbacks>

  datatype Cause = AsPlanned | FeatureOff | UserBlocks | SandboxDisallowed

  datatype Resolution = Resolution(executed: Executed, cause: Cause)

  datatype Decision = Decision(executed: Executed, cause: Cause, requiresApproval: bool)

  // ---------- the fallback table ----------

  function NamedAmong(name: string, modes: seq<Mode>): Option<Executed> {
    if modes == [] then None
    else if name == Name(modes[0]) then Some(Runs(modes[0]))
    else NamedAmong(name, modes[1..])
  }

  function Named(name: string): Option<Executed> {
    if name == "research_v1" then Some(ResearchV1)
    else if name == "mode_disabled" then Some(ModeDisabled)
    else NamedAmong(name, MODES)
  }

  /** Where a mode falls back to that its feature flag or, if `blocked`, the user's flags keep
      from being executed. */
  function Target(t: Table, planned: Mode, blocked: bool): Executed {
    var listed := if Name(planned) !in t then "" else
                  if blocked then t[Name(planned)].whenUserBlocks else t[Name(planned)].whenDisabled;
    var name := if listed != "" then listed else if blocked then "direct_answer" else "mode_disabled";
    match Named(name)
    case Some(e) => e
    case None => if blocked then Runs(DirectAnswer) else ModeDisabled
  }

  // ---------- the executed mode ----------

  function Disabled(t: Table, planned: Mode): Resolution {
    Resolution(Target(t, planned, false), FeatureOff)
  }

  function Blocked(t: Table, planned: Mode): Resolution {
    Resolution(Target(t, planned, true), UserBlocks)
  }

  /** A capability counts as needed if the request requires it and the user allows it. */
  function Resolved(planned: Mode, f: Features, s: Signals, t: Table): Resolution {
    match planned
    case Reflection => if !f.reflection then Disabled(t, planned) else Resolution(Runs(planned), AsPlanned)
    case TreeOfThoughts => if !f.treeOfThoughts then Disabled(t, planned) else Resolution(Runs(planned), AsPlanned)
    case Debate => if !f.debate then Disabled(t, planned) else Resolution(Runs(planned), AsPlanned)
    case ResearchV2 =>
      if !(s.requiresResearch && s.allowResearch) then Blocked(t, planned)
      else if !f.researchV2 then Disabled(t, planned)
      else Resolution(Runs(planned), AsPlanned)
    case SandboxExecution =>
      if !(s.requiresSandbox && s.allowSandbox) then Blocked(t, planned) else Resolution(Runs(planned), AsPlanned)
    case ReactTool | DagWorkflow =>
      if !(s.requiresTools && s.allowTools) then Blocked(t, planned) else Resolution(Runs(planned), AsPlanned)
    case RagAnswer => if !s.requiresRag then Blocked(t, planned) else Resolution(Runs(planned), AsPlanned)
    case _ => Resolution(Runs(planned), AsPlanned)
  }

  /** What the request and the plan say about risk. */
  predicate Risky(planned: Mode, complexity: real, risk: string, s: Signals) {
    complexity >= 0.60 || risk == "high" || risk == "critical" || s.requiresSandbox || planned == SandboxExecution
  }

  /** The last step takes a sandbox back that the user has not allowed. */
  function Decided(planned: Mode, complexity: real, risk: string, f: Features, s: Signals, t: Table): Decision {
    var r := Resolved(planned, f, s, t);
    var approval := Risky(planned, complexity, risk, s) || r.executed == Runs(SandboxExecution);
    if !s.allowSandbox && r.executed == Runs(SandboxExecution)
    then Decision(Runs(DirectAnswer), SandboxDisallowed, false)
    else Decision(r.executed, r.cause, approval)
  }

  // ---------- executed as planned ----------

  /** The flag that switches the mode off, if it has one, is on. */
  predicate Enabled(mode: Mode, f: Features) {
    match mode
    case Reflection => f.reflection
    case TreeOfThoughts => f.treeOfThoughts
    case Debate => f.debate
    case ResearchV2 => f.researchV2
    case _ => true
  }

  /** The user allows what executing the mode takes. Execution counts workflows as tool use, which
      the selection does not: hence not in `Forbidden`. */
  predicate Allowed(mode: Mode, s: Signals) {
    !Forbidden(mode, s) && (mode == DagWorkflow ==> s.allowTools)
  }

  /** The request was found to require what executing the mode takes, if it takes anything. */
  predicate CalledFor(mode: Mode, s: Signals) {
    match mode
    case SandboxExecution => s.requiresSandbox
    case ResearchV2 => s.requiresResearch
    case ReactTool | DagWorkflow => s.requiresTools
    case RagAnswer => s.requiresRag
    case _ => true
  }

  /** The planned mode is executed, and not by way of the table, exactly if it is switched on,
      allowed, and called for. */
  lemma AsPlannedIff(planned: Mode, complexity: real, risk: string, f: Features, s: Signals, t: Table)
    ensures var d := Decided(planned, complexity, risk, f, s, t);
            && (d.cause == AsPlanned <==> Enabled(planned, f) && Allowed(planned, s) && CalledFor(planned, s))
            && (d.cause == AsPlanned ==> d.executed == Runs(planned))
  {
  }

  /** The decision blames the user exactly if the user is in the way. */
  ghost predicate BlamesRightly(planned: Mode, f: Features, s: Signals, t: Table) {
    Resolved(planned, f, s, t).cause == UserBlocks <==> !Allowed(planned, s)
  }

  /** The blame is right exactly unless the user allows a mode that the request does not call for. */
  lemma BlamesRightlyIff(planned: Mode, f: Features, s: Signals, t: Table)
    ensures BlamesRightly(planned, f, s, t) <==> (Allowed(planned, s) ==> CalledFor(planned, s))
  {
  }

  /** For a request it is right whatever is planned, and with any table, exactly if the request
      requires everything the user allows, and the knowledge base, which no flag withholds. */
  lemma AlwaysBlamesRightlyIff(s: Signals)
    ensures (forall planned, f, t :: BlamesRightly(planned, f, s, t)) <==>
            && s.requiresRag && (s.allowSandbox ==> s.requiresSandbox)
            && (s.allowResearch ==> s.requiresResearch) && (s.allowTools ==> s.requiresTools)
  {
    forall planned, f, t ensures BlamesRightly(planned, f, s, t) <==> (Allowed(planned, s) ==> CalledFor(planned, s)) {
      BlamesRightlyIff(planned, f, s, t);
    }
    assert Allowed(SandboxExecution, s) == s.allowSandbox && Allowed(ResearchV2, s) == s.allowResearch;
    assert Allowed(ReactTool, s) == s.allowTools && Allowed(RagAnswer, s);
    assert forall planned | planned in {SandboxExecution, ResearchV2, ReactTool, RagAnswer} ::
        BlamesRightly(planned, ALL_OFF, s, map[]) <==> (Allowed(planned, s) ==> CalledFor(planned, s));
  }

  // ---------- what a table can lead to ----------

  /** The entries that are ever looked up. */
  predicate LookedUp(planned: Mode, blocked: bool) {
    if blocked then planned in {ResearchV2, SandboxExecution, ReactTool, DagWorkflow, RagAnswer}
    else planned in {Reflection, TreeOfThoughts, Debate, ResearchV2}
  }

  lemma ExecutedOrTarget(planned: Mode, f: Features, s: Signals, t: Table)
    ensures var r := Resolved(planned, f, s, t);
            match r.cause
            case UserBlocks =>
              && LookedUp(planned, true) && !(Allowed(planned, s) && CalledFor(planned, s))
              && r.executed == Target(t, planned, true)
            case FeatureOff =>
              && LookedUp(planned, false) && !Enabled(planned, f) && Allowed(planned, s)
              && r.executed == Target(t, planned, false)
            case AsPlanned => Allowed(planned, s) && Enabled(planned, f) && r.executed == Runs(planned)
            case SandboxDisallowed => false
  {
  }

  /** A request that gets to the entry `(planned, blocked)`: the user withholds everything, but for
      research where it is the feature flag that stops research. */
  function Withheld(planned: Mode, blocked: bool): Signals {
    if planned == ResearchV2 && !blocked then PlainSignals(false).(requiresResearch := true, allowResearch := true)
    else PlainSignals(false)
  }

  lemma LookUpHappens(t: Table, planned: Mode, blocked: bool, f: Features)
    requires LookedUp(planned, blocked) && (!blocked ==> !Enabled(planned, f))
    ensures Resolved(planned, f, Withheld(planned, blocked), t).executed == Target(t, planned, blocked)
  {
  }

  const ALL_OFF := Features(false, false, false, false)

  /** The user has withheld what this takes, research of either version included. */
  predicate OffLimits(e: Executed, s: Signals) {
    match e
    case Runs(mode) => Forbidden(mode, s)
    case ResearchV1 => !s.allowResearch
    case ModeDisabled => false
  }

  /** With this table nothing is executed that the user forbids. */
  ghost predicate KeepsPermissions(t: Table) {
    forall planned, complexity, risk, f, s :: !OffLimits(Decided(planned, complexity, risk, f, s, t).executed, s)
  }

  predicate Permitted(t: Table, planned: Mode, blocked: bool) {
    var e := Target(t, planned, blocked);
    && e != Runs(ReactTool)
    && (e == Runs(ResearchV2) || e == ResearchV1 ==> planned == ResearchV2 && !blocked)
  }

  lemma NotPermittedFor(t: Table, planned: Mode, blocked: bool)
    requires LookedUp(planned, blocked) && !Permitted(t, planned, blocked)
    ensures !KeepsPermissions(t)
  {
    var s := Withheld(planned, blocked);
    LookUpHappens(t, planned, blocked, ALL_OFF);
    assert OffLimits(Decided(planned, 0.0, "low", ALL_OFF, s, t).executed, s);
  }

  lemma PermittedFor(planned: Mode, complexity: real, risk: string, f: Features, s: Signals, t: Table)
    requires forall blocked :: LookedUp(planned, blocked) ==> Permitted(t, planned, blocked)
    ensures !OffLimits(Decided(planned, complexity, risk, f, s, t).executed, s)
  {
    ExecutedOrTarget(planned, f, s, t);
  }

  /** A table keeps to the permissions exactly if no entry that is ever looked up leads to the tool
      mode, or to research of either version from anywhere but disabled research; the sandbox is
      taken back anyway. */
  lemma KeepsPermissionsIff(t: Table)
    ensures KeepsPermissions(t) <==>
            forall planned, blocked :: LookedUp(planned, blocked) ==> Permitted(t, planned, blocked)
  {
    if planned, blocked :| LookedUp(planned, blocked) && !Permitted(t, planned, blocked) {
      NotPermittedFor(t, planned, blocked);
    } else {
      forall planned, complexity, risk, f, s
        ensures !OffLimits(Decided(planned, complexity, risk, f, s, t).executed, s)
      {
        PermittedFor(planned, complexity, risk, f, s, t);
      }
    }
  }

  /** With this table no mode is executed that a feature flag switches off. */
  ghost predicate KeepsFeatures(t: Table, f: Features) {
    forall planned, complexity, risk, s ::
      var e := Decided(planned, complexity, risk, f, s, t).executed; e.Runs? ==> Enabled(e.mode, f)
  }

  predicate LeadsToEnabled(t: Table, planned: Mode, blocked: bool, f: Features) {
    var e := Target(t, planned, blocked); e.Runs? ==> Enabled(e.mode, f)
  }

  /** The target of an entry is executed as it is, its own flag unseen. So the flags are kept to
      exactly if every entry they make one look up leads to a mode that is on. */
  lemma KeepsFeaturesIff(t: Table, f: Features)
    ensures KeepsFeatures(t, f) <==>
            forall planned, blocked :: LookedUp(planned, blocked) && (!blocked ==> !Enabled(planned, f)) ==>
              LeadsToEnabled(t, planned, blocked, f)
  {
    if planned, blocked :| LookedUp(planned, blocked) && (!blocked ==> !Enabled(planned, f)) &&
                           !LeadsToEnabled(t, planned, blocked, f)
    {
      LookUpHappens(t, planned, blocked, f);
      var e := Decided(planned, 0.0, "low", f, Withheld(planned, blocked), t).executed;
      assert e.Runs? && !Enabled(e.mode, f);
    } else {
      forall planned, complexity, risk, s
        ensures var e := Decided(planned, complexity, risk, f, s, t).executed; e.Runs? ==> Enabled(e.mode, f)
      {
        ExecutedOrTarget(planned, f, s, t);
      }
    }
  }

  /** With this table a sandbox is executed only if it was planned and the request requires it. */
  ghost predicate SandboxOnlyAsPlanned(t: Table) {
    forall planned, complexity, risk, f, s ::
      Decided(planned, complexity, risk, f, s, t).executed == Runs(SandboxExecution) ==>
        planned == SandboxExecution && s.requiresSandbox
  }

  /** A request that gets to the entry `(planned, blocked)` with everything allowed, but requires
      nothing more than it must. */
  function Granted(planned: Mode, blocked: bool): Signals {
    PlainSignals(true).(requiresResearch := planned == ResearchV2 && !blocked)
  }

  lemma GrantedLookUpHappens(t: Table, planned: Mode, blocked: bool)
    requires LookedUp(planned, blocked)
    ensures Decided(planned, 0.0, "low", ALL_OFF, Granted(planned, blocked), t).executed == Target(t, planned, blocked)
  {
  }

  /** Under every table a sandbox is executed only with the user's permission and an approval. That
      it was planned as well, and required, takes a table no entry of which, if ever looked up,
      leads to the sandbox. */
  lemma SandboxIsGuarded(t: Table)
    ensures forall planned, complexity, risk, f, s ::
              var d := Decided(planned, complexity, risk, f, s, t);
              d.executed == Runs(SandboxExecution) ==> s.allowSandbox && d.requiresApproval
    ensures SandboxOnlyAsPlanned(t) <==>
            forall planned, blocked :: LookedUp(planned, blocked) ==>
              Target(t, planned, blocked) != Runs(SandboxExecution)
  {
    if planned, blocked :| LookedUp(planned, blocked) && Target(t, planned, blocked) == Runs(SandboxExecution) {
      GrantedLookUpHappens(t, planned, blocked);
      assert !Granted(planned, blocked).requiresSandbox;
    } else {
      forall planned, complexity, risk, f, s |
        Decided(planned, complexity, risk, f, s, t).executed == Runs(SandboxExecution)
        ensures planned == SandboxExecution && s.requiresSandbox
      {
        ExecutedOrTarget(planned, f, s, t);
      }
    }
  }

  /** With this table every risky decision requires an approval. */
  ghost predicate KeepsApprovals(t: Table) {
    forall planned, complexity, risk, f, s ::
      Risky(planned, complexity, risk, s) ==> Decided(planned, complexity, risk, f, s, t).requiresApproval
  }

  /** Taking a sandbox back drops the approval, whatever else called for it: risky decisions keep
      theirs exactly if no entry that is ever looked up leads to the sandbox. */
  lemma KeepsApprovalsIff(t: Table)
    ensures KeepsApprovals(t) <==>
            forall planned, blocked :: LookedUp(planned, blocked) ==>
              Target(t, planned, blocked) != Runs(SandboxExecution)
  {
    if planned, blocked :| LookedUp(planned, blocked) && Target(t, planned, blocked) == Runs(SandboxExecution) {
      LookUpHappens(t, planned, blocked, ALL_OFF);
      assert !Decided(planned, 1.0, "high", ALL_OFF, Withheld(planned, blocked), t).requiresApproval;
      assert Risky(planned, 1.0, "high", Withheld(planned, blocked));
    } else {
      forall planned, complexity, risk, f, s | Risky(planned, complexity, risk, s)
        ensures Decided(planned, complexity, risk, f, s, t).requiresApproval
      {
        ExecutedOrTarget(planned, f, s, t);
      }
    }
  }

  // ---------- the table the router ships with ----------

  function ShippedFallbacks(mode: Mode): Fallbacks {
    Fallbacks(match mode
              case SandboxExecution => "mode_disabled"
              case ResearchV2 => "research_v1"
              case TreeOfThoughts => Name(Reflection)
              case Debate => Name(Reflection)
              case SwarmWorkflow => Name(DagWorkflow)
              case Reflection => Name(TreeOfThoughts)
              case DagWorkflow => Name(ReactTool)
              case _ => Name(DirectAnswer), Name(DirectAnswer))
  }

  function TableOf(modes: seq<Mode>): Table {
    if modes == [] then map[] else TableOf(modes[1..])[Name(modes[0]) := ShippedFallbacks(modes[0])]
  }

  const SHIPPED := TableOf(MODES)

  lemma {:induction false} TableLists(modes: seq<Mode>, mode: Mode)
    requires mode in modes
    ensures Name(mode) in TableOf(modes) && TableOf(modes)[Name(mode)] == ShippedFallbacks(mode)
  {
    if modes[0] != mode {
      NamesDiffer(mode, modes[0]);
      TableLists(modes[1..], mode);
    }
  }

  lemma {:induction false} NamedAmongFinds(mode: Mode, modes: seq<Mode>)
    requires mode in modes
    ensures NamedAmong(Name(mode), modes) == Some(Runs(mode))
  {
    if modes[0] != mode {
      NamesDiffer(mode, modes[0]);
      NamedAmongFinds(mode, modes[1..]);
    }
  }

  lemma NamedFinds(mode: Mode)
    ensures Named(Name(mode)) == Some(Runs(mode))
  {
    EveryModeListed(mode);
    NamedAmongFinds(mode, MODES);
    assert |"research_v1"| == 11 && "research_v1"[10] == '1' && |"mode_disabled"| == 13 && "mode_disabled"[0] == 'm';
    assert Name(ResearchV2)[10] == '2' && Name(DirectAnswer)[0] == 'd';
  }

  function ShippedTarget(mode: Mode, blocked: bool): Executed {
    if blocked then Runs(DirectAnswer)
    else match mode
      case SandboxExecution => ModeDisabled
      case ResearchV2 => ResearchV1
      case TreeOfThoughts => Runs(Reflection)
      case Debate => Runs(Reflection)
      case SwarmWorkflow => Runs(DagWorkflow)
      case Reflection => Runs(TreeOfThoughts)
      case DagWorkflow => Runs(ReactTool)
      case _ => Runs(DirectAnswer)
  }

  lemma NameNotEmpty(mode: Mode)
    ensures Name(mode) != ""
  {
  }

  lemma EntryLeadsTo(t: Table, mode: Mode, blocked: bool)
    requires Name(mode) in t && t[Name(mode)] == ShippedFallbacks(mode)
    ensures Target(t, mode, blocked) == ShippedTarget(mode, blocked)
  {
    var e := ShippedTarget(mode, blocked);
    if e.Runs? {
      NamedFinds(e.mode);
      NameNotEmpty(e.mode);
    }
  }

  lemma ShippedLeadsTo(mode: Mode, blocked: bool)
    ensures Target(SHIPPED, mode, blocked) == ShippedTarget(mode, blocked)
  {
    EveryModeListed(mode);
    TableLists(MODES, mode);
    EntryLeadsTo(SHIPPED, mode, blocked);
  }

  ghost predicate LeadsAsShipped(t: Table) {
    forall planned, blocked :: Target(t, planned, blocked) == ShippedTarget(planned, blocked)
  }

  lemma ShippedDoes()
    ensures LeadsAsShipped(SHIPPED)
  {
    forall planned, blocked ensures Target(SHIPPED, planned, blocked) == ShippedTarget(planned, blocked) {
      ShippedLeadsTo(planned, blocked);
    }
  }

  lemma SafeAsShipped(t: Table)
    requires LeadsAsShipped(t)
    ensures KeepsPermissions(t) && KeepsApprovals(t) && SandboxOnlyAsPlanned(t)
  {
    KeepsPermissionsIff(t);
    KeepsApprovalsIff(t);
    SandboxIsGuarded(t);
  }

  lemma FeaturesAsShipped(t: Table, f: Features)
    requires LeadsAsShipped(t)
    ensures KeepsFeatures(t, f) <==> f.reflection || (f.treeOfThoughts && f.debate)
  {
    KeepsFeaturesIff(t, f);
    if !f.reflection && !f.treeOfThoughts { assert !LeadsToEnabled(t, Reflection, false, f); }
    if !f.reflection && !f.debate { assert !LeadsToEnabled(t, Debate, false, f); }
  }

  /** What users may rely on: as shipped, nothing forbidden is ever executed, whatever was planned
      for whatever reason, nor a sandbox that was not asked for, and no risky decision goes without
      an approval. */
  lemma ShippedIsSafe()
    ensures KeepsPermissions(SHIPPED) && KeepsApprovals(SHIPPED) && SandboxOnlyAsPlanned(SHIPPED)
  {
    ShippedDoes();
    SafeAsShipped(SHIPPED);
  }

  /** What operators may not rely on: as shipped, no mode that is switched off is executed exactly
      if reflection is on, or both tree of thoughts and debate are. */
  lemma ShippedKeepsFeaturesIff(f: Features)
    ensures KeepsFeatures(SHIPPED, f) <==> f.reflection || (f.treeOfThoughts && f.debate)
  {
    ShippedDoes();
    FeaturesAsShipped(SHIPPED, f);
  }

  lemma AsPlannedAsShipped(planned: Mode, complexity: real, risk: string, f: Features, s: Signals, t: Table)
    requires LeadsAsShipped(t)
    ensures Decided(planned, complexity, risk, f, s, t).executed == Runs(planned) <==>
            Enabled(planned, f) && Allowed(planned, s) && CalledFor(planned, s)
  {
    AsPlannedIff(planned, complexity, risk, f, s, t);
    ExecutedOrTarget(planned, f, s, t);
  }

  /** As shipped, what is planned is what is executed exactly if it is switched on, allowed and called
      for. In particular workflows take tools, allowed and required. */
  lemma ShippedAsPlannedIff(planned: Mode, complexity: real, risk: string, f: Features, s: Signals)
    ensures Decided(planned, complexity, risk, f, s, SHIPPED).executed == Runs(planned) <==>
            Enabled(planned, f) && Allowed(planned, s) && CalledFor(planned, s)
  {
    ShippedDoes();
    AsPlannedAsShipped(planned, complexity, risk, f, s, SHIPPED);
  }

  /** A workflow the user allows, as the selection has it, is not executed for want of tools. */
  lemma WorkflowGivenUp(complexity: real, risk: string, f: Features) returns (s: Signals)
    ensures !s.allowTools && s.requiresTools && !Forbidden(DagWorkflow, s)
    ensures Decided(DagWorkflow, complexity, risk, f, s, SHIPPED).executed == Runs(DirectAnswer)
  {
    s := PlainSignals(true).(requiresTools := true, allowTools := false);
    ShippedLeadsTo(DagWorkflow, true);
  }

  lemma ReflectionFallsBack(s: Signals, t: Table)
    requires LeadsAsShipped(t)
    ensures Decided(Reflection, 0.0, "low", ALL_OFF, s, t).executed == Runs(TreeOfThoughts)
  {
  }

  /** With reflection and tree of thoughts both off, a planned reflection runs a tree of thoughts. */
  lemma DisabledModeExecuted(s: Signals)
    ensures Decided(Reflection, 0.0, "low", ALL_OFF, s, SHIPPED).executed == Runs(TreeOfThoughts)
    ensures !Enabled(TreeOfThoughts, ALL_OFF)
  {
    ShippedDoes();
    ReflectionFallsBack(s, SHIPPED);
  }

  /** A user who allows everything is blamed for the fall-back of a planned look-up in the knowledge
      base that the request was not found to require. */
  lemma AllowedModeBlamed(f: Features)
    ensures Allowed(RagAnswer, PlainSignals(true))
    ensures Resolved(RagAnswer, f, PlainSignals(true), SHIPPED) == Resolution(Runs(DirectAnswer), UserBlocks)
  {
    ShippedLeadsTo(RagAnswer, true);
  }
}
