/** The number behind every candidate, spelled out: what weights, penalties, boosts and the lift of the
    older rules make of the signals, and what the selection reports.
 */
module ModeScores {
  import opened ModeRouter
  import opened Wrappers

  // ---------- before boosts ----------

  /** Every capability signal counts with its own weight. */
  lemma RawScoreIs(mode: Mode, s: Signals, w: Weights)
    ensures RawScore(mode, s, w) ==
            w.analyze * s.analyze + w.research * s.research + w.execution * s.execution + w.multiAgent * s.multiAgent
            + w.debate * s.debate + w.exploration * s.exploration + w.toolNeed * s.toolNeed + w.ragNeed * s.ragNeed
            + w.sandboxNeed * s.sandboxNeed + w.needsCitations * s.evidenceNeed
            + w.base + w.overall * s.overall - w.riskPenalty * s.approvalNeed
            + (if mode == DirectAnswer then -0.6 else 0.05) * s.overall
  {
    SumOfProducts(CapabilityWeights(w), CapabilitySignals(s));
    SumOfTen(Products(CapabilityWeights(w), CapabilitySignals(s)));
  }

  /** The products a weighted sum adds up. */
  function Products(ws: seq<real>, vs: seq<real>): (ts: seq<real>)
    requires |ws| == |vs|
    ensures |ts| == |ws|
  {
    seq(|ws|, i requires 0 <= i < |ws| => ws[i] * vs[i])
  }

  function Sum(ts: seq<real>): real {
    if ts == [] then 0.0 else Sum(ts[..|ts| - 1]) + ts[|ts| - 1]
  }

  lemma {:induction false} SumOfProducts(ws: seq<real>, vs: seq<real>)
    requires |ws| == |vs|
    ensures WeightedSum(ws, vs) == Sum(Products(ws, vs))
  {
    if ws != [] {
      var n := |ws| - 1;
      SumOfProducts(ws[..n], vs[..n]);
      forall i | 0 <= i < n ensures Products(ws, vs)[i] == Products(ws[..n], vs[..n])[i] {
        assert ws[..n][i] == ws[i] && vs[..n][i] == vs[i];
      }
      assert Products(ws, vs)[..n] == Products(ws[..n], vs[..n]);
    }
  }

  lemma SumStep(ts: seq<real>, n: nat)
    requires 0 < n <= |ts|
    ensures Sum(ts[..n]) == Sum(ts[..n - 1]) + ts[n - 1]
  {
    assert ts[..n][..n - 1] == ts[..n - 1];
  }

  lemma SumOfFive(ts: seq<real>, n: nat)
    requires n + 5 <= |ts|
    ensures Sum(ts[..n + 5]) == Sum(ts[..n]) + ts[n] + ts[n + 1] + ts[n + 2] + ts[n + 3] + ts[n + 4]
  {
    SumStep(ts, n + 1);
    SumStep(ts, n + 2);
    SumStep(ts, n + 3);
    SumStep(ts, n + 4);
    SumStep(ts, n + 5);
  }

  lemma {:induction false} SumOfTen(ts: seq<real>)
    requires |ts| == 10
    ensures Sum(ts) == ts[0] + ts[1] + ts[2] + ts[3] + ts[4] + ts[5] + ts[6] + ts[7] + ts[8] + ts[9]
  {
    SumOfFive(ts, 0);
    SumOfFive(ts, 5);
    assert ts[..10] == ts && Sum(ts[..0]) == 0.0;
  }

  function Within(v: real): real {
    if v <= 0.0 then 0.0 else if v >= 1.0 then 1.0 else v
  }

  /** What an estimate, if the policy lists one, costs against a limit, if one is set. */
  function Share(listed: map<Mode, real>, mode: Mode, limit: real, factor: real): real {
    if mode in listed && limit > 0.0 then factor * (listed[mode] / limit) else 0.0
  }

  /** `r` is the nearest number of `k` hundredths, halves going upwards. */
  predicate Nearest(v: real, r: real, k: int) {
    r * 100.0 == k as real && k as real - 0.5 <= v * 100.0 < k as real + 0.5
  }

  ghost predicate InHundredths(v: real, r: real) {
    exists k :: Nearest(v, r, k)
  }

  /** The score of a mode by itself: the raw score within bounds, less a tenth of the share of the budget
      and a twentieth of the share of the ceiling that its estimates take up, in hundredths. */
  lemma OwnScoreIs(mode: Mode, s: Signals, p: Policy)
    ensures var c := ScoreOneMode(mode, s, p);
            var raw := RawScore(mode, s, if mode in p.weights then p.weights[mode] else NO_WEIGHTS);
            var shares := Share(p.costUsd, mode, s.budgetUsd, 0.10) +
                          Share(p.latencyMs, mode, s.maxLatencyMs as real, 0.05);
            c.mode == mode && InHundredths(Within(Within(raw) - shares), c.score)
  {
    var v := PenalizedScore(mode, s, p);
    var k := (v * 100.0 + 0.5).Floor;
    assert Nearest(v, ScoreOneMode(mode, s, p).score, k);
  }

  lemma NoWeightsAreZero(mode: Mode, s: Signals)
    ensures RawScore(mode, s, NO_WEIGHTS) == (if mode == DirectAnswer then -0.6 else 0.05) * s.overall
  {
    RawScoreIs(mode, s, NO_WEIGHTS);
  }

  /** What the rules reckon with where the policy lists no estimate, and how they read a duration. */
  lemma Estimates(p: Policy, mode: Mode)
    ensures EstimatedCost(p, mode) == (if mode in p.costUsd then p.costUsd[mode] else 0.05)
    ensures EstimatedLatency(p, mode) == (if mode in p.latencyMs then p.latencyMs[mode] else 10000.0)
    ensures var v := EstimatedLatency(p, mode);
            var n := Truncated(v) as real;
            if v >= 0.0 then 0.0 <= n <= v < n + 1.0 else n - 1.0 < v <= n <= 0.0
  {
  }

  // ---------- boosts and lift ----------

  /** How much the request's needs add for a mode. */
  function Need(mode: Mode, s: Signals): real {
    match mode
    case RagAnswer => if s.requiresRag || s.ragNeed > 0.5 then 0.45 else 0.0
    case ReactTool => if s.requiresTools || s.toolNeed > 0.5 then 0.45 else 0.0
    case DagWorkflow => if s.requiresTools || s.toolNeed > 0.5 then 0.45 else 0.0
    case ResearchV2 => if s.requiresResearch || s.requiresCitations then 1.0 else 0.0
    case Reflection => if s.analyze >= 0.4 then 0.60 else 0.0
    case _ => 0.0
  }

  /** The candidate lifted by `amount`, up to the bound. */
  function Raised(c: Candidate, amount: real): Candidate {
    c.(score := Within(c.score + amount))
  }

  /** What the boosts for a mode add up to. */
  function Total(boosts: seq<Boost>, mode: Mode): real {
    if boosts == [] then 0.0
    else
      var last := boosts[|boosts| - 1];
      Total(boosts[..|boosts| - 1], mode) + if last.mode == mode then last.amount else 0.0
  }

  lemma {:induction false} RaisedByTotal(c: Candidate, boosts: seq<Boost>)
    requires 0.0 <= c.score <= 1.0 && !c.rejected && forall b :: b in boosts ==> b.amount >= 0.0
    ensures Total(boosts, c.mode) >= 0.0 && BoostedAll(c, boosts) == Raised(c, Total(boosts, c.mode))
  {
    if boosts != [] {
      var last := |boosts| - 1;
      assert boosts[last] in boosts;
      RaisedByTotal(c, boosts[..last]);
    }
  }

  lemma {:induction false} TotalConcat(a: seq<Boost>, b: seq<Boost>, mode: Mode)
    ensures Total(a + b, mode) == Total(a, mode) + Total(b, mode)
  {
    if b == [] {
      assert a + b == a;
    } else {
      assert (a + b)[..|a + b| - 1] == a + b[..|b| - 1];
      TotalConcat(a, b[..|b| - 1], mode);
    }
  }

  function Given(on: bool, boosts: seq<Boost>): seq<Boost> {
    if on then boosts else []
  }

  function Amount(on: bool, b: Boost, mode: Mode): real {
    if on && b.mode == mode then b.amount else 0.0
  }

  lemma {:induction false} TotalOfOne(on: bool, b: Boost, mode: Mode)
    ensures Total(Given(on, [b]), mode) == Amount(on, b, mode)
  {
    assert [b][..0] == [];
  }

  lemma {:induction false} TotalOfTwo(on: bool, a: Boost, b: Boost, mode: Mode)
    ensures Total(Given(on, [a, b]), mode) == Total(Given(on, [a]), mode) + Total(Given(on, [b]), mode)
  {
    TotalConcat([a], [b], mode);
    assert [a] + [b] == [a, b];
  }

  lemma {:induction false} TotalOfSeven(a: seq<Boost>, b: seq<Boost>, c: seq<Boost>, d: seq<Boost>, e: seq<Boost>,
                                        f: seq<Boost>, g: seq<Boost>, mode: Mode)
    ensures Total(a + b + c + d + e + f + g, mode) ==
            Total(a, mode) + Total(b, mode) + Total(c, mode) + Total(d, mode) + Total(e, mode) + Total(f, mode)
            + Total(g, mode)
  {
    TotalConcat(a, b, mode);
    TotalConcat(a + b, c, mode);
    TotalConcat(a + b + c, d, mode);
    TotalConcat(a + b + c + d, e, mode);
    TotalConcat(a + b + c + d + e, f, mode);
    TotalConcat(a + b + c + d + e + f, g, mode);
  }

  lemma {:induction false} TotalOfParts(s: Signals, mode: Mode)
    ensures var tools, research := s.requiresTools || s.toolNeed > 0.5, s.requiresResearch || s.requiresCitations;
            Total(BoostsFor(s), mode) ==
            Total(Given(s.requiresRag || s.ragNeed > 0.5, [Boost(RagAnswer, 0.45)]), mode)
            + Total(Given(tools, [Boost(ReactTool, 0.45), Boost(DagWorkflow, 0.45)]), mode)
            + Total(Given(research, [Boost(ResearchV2, 0.70)]), mode)
            + Total(Given(s.analyze >= 0.4, [Boost(Reflection, 0.30)]), mode)
            + Total(Given(s.requiresSandbox || s.sandboxNeed > 0.5, [Boost(SandboxExecution, 0.0)]), mode)
            + Total(Given(research, [Boost(ResearchV2, 0.30)]), mode)
            + Total(Given(s.analyze >= 0.4, [Boost(Reflection, 0.30)]), mode)
  {
    var tools, research := s.requiresTools || s.toolNeed > 0.5, s.requiresResearch || s.requiresCitations;
    TotalOfSeven(Given(s.requiresRag || s.ragNeed > 0.5, [Boost(RagAnswer, 0.45)]),
                 Given(tools, [Boost(ReactTool, 0.45), Boost(DagWorkflow, 0.45)]),
                 Given(research, [Boost(ResearchV2, 0.70)]),
                 Given(s.analyze >= 0.4, [Boost(Reflection, 0.30)]),
                 Given(s.requiresSandbox || s.sandboxNeed > 0.5, [Boost(SandboxExecution, 0.0)]),
                 Given(research, [Boost(ResearchV2, 0.30)]),
                 Given(s.analyze >= 0.4, [Boost(Reflection, 0.30)]), mode);
  }

  /** Amounts that add up to `total`: those of each signal in turn. */
  lemma AmountsAreNeed(s: Signals, mode: Mode, rag: real, react: real, dag: real, research: real, analyze: real,
                       box: real, again: real, total: real)
    requires var tools, study := s.requiresTools || s.toolNeed > 0.5, s.requiresResearch || s.requiresCitations;
             && rag == Amount(s.requiresRag || s.ragNeed > 0.5, Boost(RagAnswer, 0.45), mode)
             && react == Amount(tools, Boost(ReactTool, 0.45), mode)
             && dag == Amount(tools, Boost(DagWorkflow, 0.45), mode)
             && research == Amount(study, Boost(ResearchV2, 0.70), mode)
             && analyze == Amount(s.analyze >= 0.4, Boost(Reflection, 0.30), mode)
             && box == Amount(s.requiresSandbox || s.sandboxNeed > 0.5, Boost(SandboxExecution, 0.0), mode)
             && again == Amount(study, Boost(ResearchV2, 0.30), mode)
    requires total == rag + (react + dag) + research + analyze + box + again + analyze
    ensures total == Need(mode, s)
  {
  }

  lemma {:induction false} TotalIsNeed(s: Signals, mode: Mode)
    ensures Total(BoostsFor(s), mode) == Need(mode, s)
  {
    var tools, research := s.requiresTools || s.toolNeed > 0.5, s.requiresResearch || s.requiresCitations;
    var rag, box := s.requiresRag || s.ragNeed > 0.5, s.requiresSandbox || s.sandboxNeed > 0.5;
    TotalOfParts(s, mode);
    TotalOfOne(rag, Boost(RagAnswer, 0.45), mode);
    TotalOfTwo(tools, Boost(ReactTool, 0.45), Boost(DagWorkflow, 0.45), mode);
    TotalOfOne(tools, Boost(ReactTool, 0.45), mode);
    TotalOfOne(tools, Boost(DagWorkflow, 0.45), mode);
    TotalOfOne(research, Boost(ResearchV2, 0.70), mode);
    TotalOfOne(s.analyze >= 0.4, Boost(Reflection, 0.30), mode);
    TotalOfOne(box, Boost(SandboxExecution, 0.0), mode);
    TotalOfOne(research, Boost(ResearchV2, 0.30), mode);
    AmountsAreNeed(s, mode, Total(Given(rag, [Boost(RagAnswer, 0.45)]), mode),
                   Total(Given(tools, [Boost(ReactTool, 0.45)]), mode),
                   Total(Given(tools, [Boost(DagWorkflow, 0.45)]), mode),
                   Total(Given(research, [Boost(ResearchV2, 0.70)]), mode),
                   Total(Given(s.analyze >= 0.4, [Boost(Reflection, 0.30)]), mode),
                   Total(Given(box, [Boost(SandboxExecution, 0.0)]), mode),
                   Total(Given(research, [Boost(ResearchV2, 0.30)]), mode), Total(BoostsFor(s), mode));
  }

  /** Boosts lift an accepted candidate by what the request needs of its mode, up to the bound, and leave
      a rejected one alone. */
  lemma {:induction false} BoostsAddUp(c: Candidate, s: Signals)
    requires 0.0 <= c.score <= 1.0
    ensures BoostedAll(c, BoostsFor(s)) == if c.rejected then c else Raised(c, Need(c.mode, s))
  {
    if c.rejected {
      BoostedAllKeeps(c, BoostsFor(s));
    } else {
      RaisedByTotal(c, BoostsFor(s));
      TotalIsNeed(s, c.mode);
    }
  }

  // ---------- in the final list ----------

  ghost predicate DistinctModes(ms: seq<Mode>) {
    forall i, j :: 0 <= i < j < |ms| ==> ms[i] != ms[j]
  }

  lemma {:induction false} OnceInDistinct(ms: seq<Mode>, m: Mode)
    requires DistinctModes(ms)
    ensures multiset(ms)[m] <= 1
  {
    if ms != [] {
      var init, last := ms[..|ms| - 1], ms[|ms| - 1];
      assert ms == init + [last];
      OnceInDistinct(init, m);
      if m == last { assert m !in init; }
    }
  }

  lemma PermutedDistinct(a: seq<Mode>, b: seq<Mode>)
    requires multiset(a) == multiset(b) && DistinctModes(b)
    ensures DistinctModes(a)
  {
    forall i, j | 0 <= i < j < |a| ensures a[i] != a[j] {
      assert a == a[..i] + [a[i]] + a[i + 1..j] + [a[j]] + a[j + 1..];
      OnceInDistinct(b, a[i]);
      assert multiset(a)[a[i]] == multiset(b)[a[i]];
    }
  }

  /** One candidate is lifted, the others are as they were. */
  lemma {:induction false} LiftedMember(l: seq<Candidate>, mode: Mode, amount: real, c: Candidate)
    requires DistinctModes(Modes(l)) && c in Lifted(l, mode, amount)
    ensures exists d :: d in l && c == if d.mode == mode then d.(score := Clamp01(d.score + amount)) else d
  {
    var rest := l[1..];
    assert l == [l[0]] + rest;
    if l[0].mode == mode {
      if c in rest {
        var i :| 0 <= i < |rest| && rest[i] == c;
        assert Modes(l)[i + 1] == c.mode && Modes(l)[0] == mode;
      } else {
        assert l[0] in l;
      }
    } else if c == l[0] {
      assert l[0] in l;
    } else {
      forall i, j | 0 <= i < j < |rest| ensures Modes(rest)[i] != Modes(rest)[j] {
        assert Modes(rest)[i] == Modes(l)[i + 1] && Modes(rest)[j] == Modes(l)[j + 1];
      }
      LiftedMember(rest, mode, amount, c);
    }
  }

  /** The score of a mode by itself, before it is put in hundredths. */
  function Exact(mode: Mode, s: Signals, p: Policy): real {
    Within(Within(RawScore(mode, s, if mode in p.weights then p.weights[mode] else NO_WEIGHTS))
           - (Share(p.costUsd, mode, s.budgetUsd, 0.10) + Share(p.latencyMs, mode, s.maxLatencyMs as real, 0.05)))
  }

  /** What the older rules' mode gains: more for more complexity, but at most 0.30. */
  function Lift(mode: Mode, legacy: Mode, overall: real): real {
    if mode != legacy || legacy == DirectAnswer || legacy == ReactTool then 0.0
    else if 0.15 + 0.15 * overall > 0.30 then 0.30 else 0.15 + 0.15 * overall
  }

  /** `own` in hundredths, plus what the request needs of the mode if the rules let it pass. */
  function Needed(mode: Mode, s: Signals, p: Policy, own: real): real {
    if Admitted(mode, s, p) then Within(own + Need(mode, s)) else own
  }

  ghost predicate ScoredAs(s: Signals, p: Policy, c: Candidate, score: real) {
    exists own :: InHundredths(Exact(c.mode, s, p), own) && score == Needed(c.mode, s, p, own)
  }

  lemma OneScored(s: Signals, p: Policy, mode: Mode)
    ensures var c := BoostedAll(ScoreOneMode(mode, s, p), BoostsFor(s));
            ScoredAs(s, p, c, c.score) && 0.0 <= c.score <= 1.0
  {
    var own := ScoreOneMode(mode, s, p);
    OwnScoreIs(mode, s, p);
    RoundedInUnit(PenalizedScore(mode, s, p));
    BoostsAddUp(own, s);
    BoostedAllKeeps(own, BoostsFor(s));
    assert own.rejected <==> !Admitted(mode, s, p);
    assert InHundredths(Exact(mode, s, p), own.score);
  }

  lemma ScoredExplained(s: Signals, p: Policy, c: Candidate)
    requires c in Scored(s, p)
    ensures ScoredAs(s, p, c, c.score) && 0.0 <= c.score <= 1.0
  {
    var i :| 0 <= i < |MODES| && Scored(s, p)[i] == c;
    OneScored(s, p, MODES[i]);
  }

  lemma FirstModes(s: Signals, p: Policy)
    ensures multiset(Modes(Exchanged(true, Scored(s, p), 0))) == multiset(MODES)
  {
    ScoreModesCorrect(s, p);
  }

  lemma TenModesDiffer()
    ensures DistinctModes(MODES)
  {
  }

  lemma FirstHasDistinctModes(s: Signals, p: Policy)
    ensures DistinctModes(Modes(Exchanged(true, Scored(s, p), 0)))
  {
    var ms := Modes(Exchanged(true, Scored(s, p), 0));
    FirstModes(s, p);
    TenModesDiffer();
    PermutedDistinct(ms, MODES);
  }

  ghost predicate Explained(s: Signals, p: Policy, legacy: Mode, c: Candidate) {
    exists before :: ScoredAs(s, p, c, before) && c.score == Within(before + Lift(c.mode, legacy, s.overall))
  }

  lemma LiftExplains(s: Signals, p: Policy, legacy: Mode, d: Candidate, c: Candidate)
    requires ScoredAs(s, p, d, d.score) && 0.0 <= d.score <= 1.0 && legacy != DirectAnswer && legacy != ReactTool
    requires c == if d.mode == legacy then d.(score := Clamp01(d.score + LegacyBoost(s.overall))) else d
    ensures Explained(s, p, legacy, c)
  {
    var own :| InHundredths(Exact(d.mode, s, p), own) && d.score == Needed(d.mode, s, p, own);
    assert InHundredths(Exact(c.mode, s, p), own);
    assert ScoredAs(s, p, c, d.score);
    assert c.score == Within(d.score + Lift(c.mode, legacy, s.overall));
  }

  lemma {:induction false} LiftedExplained(s: Signals, p: Policy, legacy: Mode, first: seq<Candidate>, c: Candidate)
    requires first == Exchanged(true, Scored(s, p), 0) && legacy != DirectAnswer && legacy != ReactTool
    requires c in Lifted(first, legacy, LegacyBoost(s.overall))
    ensures Explained(s, p, legacy, c)
  {
    var amount := LegacyBoost(s.overall);
    FirstHasDistinctModes(s, p);
    LiftedMember(first, legacy, amount, c);
    var d :| d in first && c == if d.mode == legacy then d.(score := Clamp01(d.score + amount)) else d;
    SameMembers(Scored(s, p), first, true);
    ScoredExplained(s, p, d);
    LiftExplains(s, p, legacy, d, c);
  }

  /** Every candidate of the final list has the score that weights, penalties, needs and the lift of the
      older rules give its mode. */
  lemma RankedExplained(s: Signals, p: Policy, legacy: Mode, c: Candidate)
    requires c in Ranked(s, p, legacy)
    ensures Explained(s, p, legacy, c)
  {
    var first := Exchanged(true, Scored(s, p), 0);
    if legacy == DirectAnswer || legacy == ReactTool {
      SameMembers(Scored(s, p), first, true);
      ScoredExplained(s, p, c);
    } else {
      SameMembers(Lifted(first, legacy, LegacyBoost(s.overall)), Ranked(s, p, legacy), false);
      LiftedExplained(s, p, legacy, first, c);
    }
  }

  /** The request needs what this mode is for, and the user withholds it. */
  predicate Withheld(mode: Mode, s: Signals) {
    match mode
    case SandboxExecution => s.requiresSandbox && !s.allowSandbox
    case ResearchV2 => s.requiresResearch && !s.allowResearch
    case ReactTool => s.requiresTools && !s.allowTools
    case _ => false
  }

  /** Of several reasons to reject it, a candidate of the final list gives what the user withholds before
      latency, and latency before cost. */
  lemma ReasonIs(s: Signals, p: Policy, legacy: Mode, c: Candidate)
    requires c in Ranked(s, p, legacy)
    ensures var latency := if c.mode in p.latencyMs then p.latencyMs[c.mode] else 10000.0;
            && c.cost == (if c.mode in p.costUsd then p.costUsd[c.mode] else 0.05)
            && c.reason == (if Withheld(c.mode, s) then BlockedByAllow
                            else if s.maxLatencyMs > 0 && latency >= (s.maxLatencyMs + 1) as real then LatencyOverMax
                            else if s.budgetUsd > 0.0 && c.cost > s.budgetUsd then CostOverBudget
                            else if s.budgetUsd <= 0.0 && c.cost > 0.01 then BudgetZero
                            else NoReason)
            && (c.rejected <==> c.reason != NoReason)
  {
    RejectedIffNotAdmitted(s, p, legacy);
    assert Honest(s, p, c);
  }

  /** The selection reports candidate `c`. */
  ghost predicate Reports(r: Selection, c: Candidate) {
    && !c.rejected && c.mode == r.selected && c.cost == r.cost
    && (r.reason.ByScore? ==> r.reason.mode == c.mode && r.reason.score == c.score)
  }

  /** What the selection reports of its mode. */
  lemma SelectionReports(ranked: seq<Candidate>, p: Policy)
    requires SortedBy(false, ranked)
    ensures var r := Selected(ranked, p);
            && (r.reported.None? ==> r.cost == 0.0 && r.latencyMs == 0 && !r.async)
            && (r.reported.Some? ==>
                  && r.reported.value == r.selected && r.latencyMs == Truncated(EstimatedLatency(p, r.selected))
                  && (r.async <==> r.selected !in {DirectAnswer, RagAnswer, ReactTool, DagWorkflow})
                  && exists c :: c in ranked && Reports(r, c))
  {
    FirstAcceptedExact(ranked);
  }
}
