/** Scoring the routing modes, sorting the candidates in place, selecting one, and blending in
    the scores an LLM classifier proposes. The reals stand in for floating point.
 */
module ModeRouter {
  import opened Wrappers

  datatype Mode =
    | DirectAnswer | RagAnswer | ReactTool | DagWorkflow | Reflection
    | TreeOfThoughts | Debate | ResearchV2 | SwarmWorkflow | SandboxExecution

  const MODES := [DirectAnswer, RagAnswer, ReactTool, DagWorkflow, Reflection,
                  TreeOfThoughts, Debate, ResearchV2, SwarmWorkflow, SandboxExecution]

  /** The name a mode goes by outside the router. */
  function Name(mode: Mode): string {
    match mode
    case DirectAnswer => "direct_answer"
    case RagAnswer => "rag_answer"
    case ReactTool => "react_tool"
    case DagWorkflow => "dag_workflow"
    case Reflection => "reflection"
    case TreeOfThoughts => "tree_of_thoughts"
    case Debate => "debate"
    case ResearchV2 => "research_v2"
    case SwarmWorkflow => "swarm_workflow"
    case SandboxExecution => "sandbox_execution"
  }

  /** Length and first letter tell the names apart, but for two pairs. */
  lemma NamesDiffer(a: Mode, b: Mode)
    requires a != b
    ensures Name(a) != Name(b)
  {
    assert forall m :: |Name(m)| == 10 ==> m == RagAnswer || m == ReactTool || m == Reflection;
    assert Name(RagAnswer)[1] == 'a' && Name(ReactTool)[2] == 'a' && Name(Reflection)[2] == 'f'
           && Name(ReactTool)[1] == 'e';
  }

  datatype Reason = NoReason | BudgetZero | CostOverBudget | LatencyOverMax | BlockedByAllow

  datatype Candidate = Candidate(mode: Mode, score: real, cost: real, rejected: bool, reason: Reason)

  datatype Signals = Signals(
    analyze: real, research: real, execution: real, multiAgent: real, debate: real, exploration: real, overall: real,
    toolNeed: real, ragNeed: real, sandboxNeed: real, evidenceNeed: real, approvalNeed: real,
    requiresRag: bool, requiresTools: bool, requiresResearch: bool, requiresCitations: bool, requiresSandbox: bool,
    allowSandbox: bool, allowResearch: bool, allowTools: bool,
    budgetUsd: real, maxLatencyMs: int)

  datatype Weights = Weights(base: real, analyze: real, research: real, execution: real, multiAgent: real, debate: real,
                             exploration: real, toolNeed: real, ragNeed: real, sandboxNeed: real, needsCitations: real,
                             overall: real, riskPenalty: real)

  const NO_WEIGHTS := Weights(0.0, 0.0, 0.0, 0.0, 0.0, 0.0, 0.0, 0.0, 0.0, 0.0, 0.0, 0.0, 0.0)

  datatype Policy = Policy(weights: map<Mode, Weights>, costUsd: map<Mode, real>, latencyMs: map<Mode, real>)

  // ---------- score of one mode ----------

  function Clamp01(v: real): (r: real)
    ensures 0.0 <= r <= 1.0 && (0.0 <= v <= 1.0 ==> r == v)
  {
    if v < 0.0 then 0.0 else if v > 1.0 then 1.0 else v
  }

  /** Rounded to two decimals, halves upwards. */
  function Rounded(v: real): real {
    (v * 100.0 + 0.5).Floor as real / 100.0
  }

  /** Conversion to an integer drops the fraction towards zero. */
  function Truncated(v: real): int {
    if v >= 0.0 then v.Floor else -((-v).Floor)
  }

  function EstimatedCost(p: Policy, mode: Mode): real {
    if mode in p.costUsd then p.costUsd[mode] else 0.05
  }

  function EstimatedLatency(p: Policy, mode: Mode): real {
    if mode in p.latencyMs then p.latencyMs[mode] else 10000.0
  }

  /** The capability signals and, in the same order, their weights. */
  function CapabilitySignals(s: Signals): seq<real> {
    [s.analyze, s.research, s.execution, s.multiAgent, s.debate, s.exploration, s.toolNeed, s.ragNeed, s.sandboxNeed,
     s.evidenceNeed]
  }

  function CapabilityWeights(w: Weights): seq<real> {
    [w.analyze, w.research, w.execution, w.multiAgent, w.debate, w.exploration, w.toolNeed, w.ragNeed, w.sandboxNeed,
     w.needsCitations]
  }

  function WeightedSum(weights: seq<real>, values: seq<real>): real
    requires |weights| == |values|
  {
    if weights == [] then 0.0
    else
      var n := |weights| - 1;
      WeightedSum(weights[..n], values[..n]) + weights[n] * values[n]
  }

  /** What base, complexity and risk contribute; complexity counts against direct_answer. */
  function CircumstanceScore(mode: Mode, s: Signals, w: Weights): real {
    w.base + w.overall * s.overall - w.riskPenalty * s.approvalNeed
    + if mode == DirectAnswer then -(s.overall * 0.6) else s.overall * 0.05
  }

  function RawScore(mode: Mode, s: Signals, w: Weights): real {
    WeightedSum(CapabilityWeights(w), CapabilitySignals(s)) + CircumstanceScore(mode, s, w)
  }

  function WeightsOf(mode: Mode, p: Policy): Weights {
    if mode in p.weights then p.weights[mode] else NO_WEIGHTS
  }

  /** The score between the weighted sum and the rounding. */
  function Penalized(raw: real, mode: Mode, budgetUsd: real, maxLatencyMs: int, p: Policy): real {
    var cost := if mode in p.costUsd && budgetUsd > 0.0 then 0.10 * (p.costUsd[mode] / budgetUsd) else 0.0;
    var latency :=
      if mode in p.latencyMs && maxLatencyMs > 0 then 0.05 * (p.latencyMs[mode] / maxLatencyMs as real) else 0.0;
    Clamp01(Clamp01(raw) - cost - latency)
  }

  function PenalizedScore(mode: Mode, s: Signals, p: Policy): real {
    Penalized(RawScore(mode, s, WeightsOf(mode, p)), mode, s.budgetUsd, s.maxLatencyMs, p)
  }

  /** The rules are tried in turn and a later one overwrites the reason of an earlier one. */
  function Rejection(mode: Mode, s: Signals, p: Policy): Reason {
    var cost, latency := EstimatedCost(p, mode), EstimatedLatency(p, mode);
    var r0 := if s.budgetUsd <= 0.0 && cost > 0.01 then BudgetZero else NoReason;
    var r1 := if s.budgetUsd > 0.0 && cost > s.budgetUsd then CostOverBudget else r0;
    var r2 := if s.maxLatencyMs > 0 && Truncated(latency) > s.maxLatencyMs then LatencyOverMax else r1;
    match mode
    case SandboxExecution => if s.requiresSandbox && !s.allowSandbox then BlockedByAllow else r2
    case ResearchV2 => if s.requiresResearch && !s.allowResearch then BlockedByAllow else r2
    case ReactTool => if s.requiresTools && !s.allowTools then BlockedByAllow else r2
    case _ => r2
  }

  function ScoreOneMode(mode: Mode, s: Signals, p: Policy): Candidate {
    var reason := Rejection(mode, s, p);
    Candidate(mode, Rounded(PenalizedScore(mode, s, p)), EstimatedCost(p, mode), reason != NoReason, reason)
  }

  lemma RoundedInUnit(v: real)
    requires 0.0 <= v <= 1.0
    ensures 0.0 <= Rounded(v) <= 1.0 && -0.005 <= Rounded(v) - v <= 0.005
  {
    var f := (v * 100.0 + 0.5).Floor;
    assert 0 <= f <= 100;
  }

  /** No capability signal is lower in `t`, and the circumstances are the same. */
  ghost predicate SignalsRise(s: Signals, t: Signals) {
    && (forall i :: 0 <= i < 10 ==> CapabilitySignals(s)[i] <= CapabilitySignals(t)[i])
    && s.overall == t.overall && s.approvalNeed == t.approvalNeed
  }

  lemma ScaledRise(w: real, a: real, b: real)
    requires 0.0 <= w && a <= b
    ensures w * a <= w * b
  {
  }

  lemma {:induction false} WeightedSumMonotone(weights: seq<real>, a: seq<real>, b: seq<real>)
    requires |weights| == |a| == |b|
    requires forall i :: 0 <= i < |weights| ==> 0.0 <= weights[i] && a[i] <= b[i]
    ensures WeightedSum(weights, a) <= WeightedSum(weights, b)
  {
    if weights != [] {
      var n := |weights| - 1;
      WeightedSumMonotone(weights[..n], a[..n], b[..n]);
      ScaledRise(weights[n], a[n], b[n]);
      assert WeightedSum(weights, a) == WeightedSum(weights[..n], a[..n]) + weights[n] * a[n];
      assert WeightedSum(weights, b) == WeightedSum(weights[..n], b[..n]) + weights[n] * b[n];
    }
  }

  /** With non-negative weights a mode's raw score never falls when capability signals rise. */
  lemma RawScoreMonotone(mode: Mode, s: Signals, t: Signals, w: Weights)
    requires SignalsRise(s, t) && forall x :: x in CapabilityWeights(w) ==> 0.0 <= x
    ensures RawScore(mode, s, w) <= RawScore(mode, t, w)
  {
    var ws := CapabilityWeights(w);
    assert forall i :: 0 <= i < |ws| ==> ws[i] in ws;
    WeightedSumMonotone(ws, CapabilitySignals(s), CapabilitySignals(t));
  }

  lemma RoundedMonotone(a: real, b: real)
    requires a <= b
    ensures Rounded(a) <= Rounded(b)
  {
    FloorMonotone(a * 100.0 + 0.5, b * 100.0 + 0.5);
    HundredthsRise((a * 100.0 + 0.5).Floor, (b * 100.0 + 0.5).Floor);
  }

  lemma FloorMonotone(x: real, y: real)
    requires x <= y
    ensures x.Floor <= y.Floor
  {
  }

  lemma HundredthsRise(m: int, n: int)
    requires m <= n
    ensures m as real / 100.0 <= n as real / 100.0
  {
  }

  lemma PenalizedMonotone(a: real, b: real, mode: Mode, budgetUsd: real, maxLatencyMs: int, p: Policy)
    requires a <= b
    ensures Penalized(a, mode, budgetUsd, maxLatencyMs, p) <= Penalized(b, mode, budgetUsd, maxLatencyMs, p)
  {
  }

  /** The same holds of the score the mode is given, through clamping, penalties and rounding. */
  lemma ScoreMonotone(mode: Mode, s: Signals, t: Signals, p: Policy)
    requires SignalsRise(s, t) && s.budgetUsd == t.budgetUsd && s.maxLatencyMs == t.maxLatencyMs
    requires forall x :: x in CapabilityWeights(WeightsOf(mode, p)) ==> 0.0 <= x
    ensures ScoreOneMode(mode, s, p).score <= ScoreOneMode(mode, t, p).score
  {
    var w := WeightsOf(mode, p);
    RawScoreMonotone(mode, s, t, w);
    PenalizedMonotone(RawScore(mode, s, w), RawScore(mode, t, w), mode, s.budgetUsd, s.maxLatencyMs, p);
    RoundedMonotone(PenalizedScore(mode, s, p), PenalizedScore(mode, t, p));
  }

  // ---------- capability boosts ----------

  /** A rejected candidate is never boosted. */
  function Boosted(c: Candidate, mode: Mode, amount: real): Candidate {
    if c.mode == mode && !c.rejected then c.(score := Clamp01(c.score + amount)) else c
  }

  datatype Boost = Boost(mode: Mode, amount: real)

  /** The boosts the signals call for, in order. */
  function BoostsFor(s: Signals): seq<Boost> {
    (if s.requiresRag || s.ragNeed > 0.5 then [Boost(RagAnswer, 0.45)] else []) +
    (if s.requiresTools || s.toolNeed > 0.5 then [Boost(ReactTool, 0.45), Boost(DagWorkflow, 0.45)] else []) +
    (if s.requiresResearch || s.requiresCitations then [Boost(ResearchV2, 0.70)] else []) +
    (if s.analyze >= 0.4 then [Boost(Reflection, 0.30)] else []) +
    (if s.requiresSandbox || s.sandboxNeed > 0.5 then [Boost(SandboxExecution, 0.0)] else []) +
    (if s.requiresResearch || s.requiresCitations then [Boost(ResearchV2, 0.30)] else []) +
    (if s.analyze >= 0.4 then [Boost(Reflection, 0.30)] else [])
  }

  function BoostedAll(c: Candidate, boosts: seq<Boost>): Candidate {
    if boosts == [] then c
    else
      var last := boosts[|boosts| - 1];
      Boosted(BoostedAll(c, boosts[..|boosts| - 1]), last.mode, last.amount)
  }

  /** The ten candidates before sorting. */
  function Scored(s: Signals, p: Policy): seq<Candidate> {
    seq(|MODES|, i requires 0 <= i < |MODES| => BoostedAll(ScoreOneMode(MODES[i], s, p), BoostsFor(s)))
  }

  lemma {:induction false} BoostedAllKeeps(c: Candidate, boosts: seq<Boost>)
    ensures var r := BoostedAll(c, boosts);
            r.mode == c.mode && r.rejected == c.rejected && r.reason == c.reason && r.cost == c.cost
    ensures 0.0 <= c.score <= 1.0 ==> 0.0 <= BoostedAll(c, boosts).score <= 1.0
    ensures c.rejected ==> BoostedAll(c, boosts) == c
  {
    if boosts != [] {
      BoostedAllKeeps(c, boosts[..|boosts| - 1]);
    }
  }

  // ---------- the exchange sort ----------

  /** `x` must stand before `y`: a higher score, or, where ties count, research first. */
  predicate Better(ties: bool, x: Candidate, y: Candidate) {
    x.score > y.score || (ties && x.score == y.score && x.mode == ResearchV2 && y.mode != ResearchV2)
  }

  function Swapped(s: seq<Candidate>, i: nat, j: nat): seq<Candidate>
    requires i < |s| && j < |s|
  {
    s[i := s[j]][j := s[i]]
  }

  /** One pass: position `i` is compared with everything from `j` on. */
  function Pass(ties: bool, s: seq<Candidate>, i: nat, j: nat): (r: seq<Candidate>)
    requires i < j <= |s|
    ensures |r| == |s|
    decreases |s| - j
  {
    if j == |s| then s
    else Pass(ties, if Better(ties, s[j], s[i]) then Swapped(s, i, j) else s, i, j + 1)
  }

  function Exchanged(ties: bool, s: seq<Candidate>, i: nat): (r: seq<Candidate>)
    requires i <= |s|
    ensures |r| == |s|
    decreases |s| - i
  {
    if i == |s| then s else Exchanged(ties, Pass(ties, s, i, i + 1), i + 1)
  }

  method ExchangeSort(a: array<Candidate>, ties: bool)
    modifies a
    ensures a[..] == Exchanged(ties, old(a[..]), 0)
  {
    var i := 0;
    while i < a.Length
      invariant 0 <= i <= a.Length
      invariant Exchanged(ties, old(a[..]), 0) == Exchanged(ties, a[..], i)
    {
      ghost var s := a[..];
      var j := i + 1;
      while j < a.Length
        invariant i < j <= a.Length
        invariant Pass(ties, s, i, i + 1) == Pass(ties, a[..], i, j)
      {
        if Better(ties, a[j], a[i]) {
          ghost var before := a[..];
          a[i], a[j] := a[j], a[i];
          assert a[..] == Swapped(before, i, j);
        }
        j := j + 1;
      }
      i := i + 1;
    }
  }

  ghost predicate SortedBy(ties: bool, s: seq<Candidate>) {
    forall i, j :: 0 <= i < j < |s| ==> !Better(ties, s[j], s[i])
  }

  function Modes(s: seq<Candidate>): seq<Mode> {
    seq(|s|, i requires 0 <= i < |s| => s[i].mode)
  }

  lemma SwapKeepsAll(s: seq<Candidate>, i: nat, j: nat)
    requires i < j < |s|
    ensures multiset(Swapped(s, i, j)) == multiset(s)
    ensures multiset(Modes(Swapped(s, i, j))) == multiset(Modes(s))
  {
    assert Modes(Swapped(s, i, j)) == Modes(s)[i := s[j].mode][j := s[i].mode];
  }

  lemma SwapKeepsTail(s: seq<Candidate>, i: nat, j: nat)
    requires i < j < |s|
    ensures Swapped(s, i, j)[..i] == s[..i]
    ensures forall x :: x in Swapped(s, i, j)[i..] ==> x in s[i..]
  {
    forall x | x in Swapped(s, i, j)[i..] ensures x in s[i..] {
      var m :| i <= m < |s| && Swapped(s, i, j)[m] == x;
      var n := if m == i then j else if m == j then i else m;
      assert s[i..][n - i] == x;
    }
  }

  ghost predicate Rearranged(s: seq<Candidate>, r: seq<Candidate>, i: nat)
    requires i <= |s| == |r|
  {
    && r[..i] == s[..i] && multiset(r) == multiset(s) && multiset(Modes(r)) == multiset(Modes(s))
    && (forall x :: x in r[i..] ==> x in s[i..])
  }

  /** A pass only rearranges what stands from position `i` on. */
  lemma {:induction false} PassRearranges(ties: bool, s: seq<Candidate>, i: nat, j: nat)
    requires i < j <= |s|
    ensures Rearranged(s, Pass(ties, s, i, j), i)
    decreases |s| - j
  {
    if j < |s| {
      SwapKeepsAll(s, i, j);
      SwapKeepsTail(s, i, j);
      PassRearranges(ties, if Better(ties, s[j], s[i]) then Swapped(s, i, j) else s, i, j + 1);
    }
  }

  /** Nothing between position `i` and `end` is better than what stands at `i`. */
  ghost predicate Leads(ties: bool, s: seq<Candidate>, i: nat, end: nat)
    requires i < |s| && end <= |s|
  {
    forall k :: i < k < end ==> !Better(ties, s[k], s[i])
  }

  lemma LeadsOneMore(ties: bool, s: seq<Candidate>, i: nat, j: nat)
    requires i < j < |s| && Leads(ties, s, i, j)
    ensures Leads(ties, if Better(ties, s[j], s[i]) then Swapped(s, i, j) else s, i, j + 1)
  {
    if Better(ties, s[j], s[i]) {
      var s' := Swapped(s, i, j);
      forall k | i < k < j + 1 ensures !Better(ties, s'[k], s'[i]) {
        assert s'[k] == (if k == j then s[i] else s[k]) && s'[i] == s[j];
      }
    }
  }

  /** After a pass nothing behind position `i` is better than what stands there. */
  lemma {:induction false} PassSelects(ties: bool, s: seq<Candidate>, i: nat, j: nat)
    requires i < j <= |s| && Leads(ties, s, i, j)
    ensures Leads(ties, Pass(ties, s, i, j), i, |s|)
    decreases |s| - j
  {
    if j < |s| {
      LeadsOneMore(ties, s, i, j);
      PassSelects(ties, if Better(ties, s[j], s[i]) then Swapped(s, i, j) else s, i, j + 1);
    }
  }

  /** The sorted part, and nothing behind it is better than anything in it. */
  ghost predicate SortedUpTo(ties: bool, s: seq<Candidate>, i: nat)
    requires i <= |s|
  {
    forall p, q :: 0 <= p < i && p < q < |s| ==> !Better(ties, s[q], s[p])
  }

  lemma SortedOneMore(ties: bool, s: seq<Candidate>, i: nat)
    requires i < |s| && SortedUpTo(ties, s, i)
    ensures SortedUpTo(ties, Pass(ties, s, i, i + 1), i + 1)
  {
    PassSelects(ties, s, i, i + 1);
    PassRearranges(ties, s, i, i + 1);
    var r := Pass(ties, s, i, i + 1);
    forall p, q | 0 <= p < i && p < q < |r| ensures !Better(ties, r[q], r[p]) {
      assert r[p] == r[..i][p] == s[p];
      if q < i {
        assert r[q] == r[..i][q] == s[q];
      } else {
        assert r[q] == r[i..][q - i] && r[q] in r[i..];
        var m :| 0 <= m < |s[i..]| && s[i..][m] == r[q];
        assert s[i + m] == r[q];
      }
    }
  }

  lemma PassPermutes(ties: bool, s: seq<Candidate>, i: nat)
    requires i < |s|
    ensures var r := Pass(ties, s, i, i + 1); multiset(r) == multiset(s) && multiset(Modes(r)) == multiset(Modes(s))
  {
    PassRearranges(ties, s, i, i + 1);
  }

  lemma {:induction false} ExchangedSorts(ties: bool, s: seq<Candidate>, i: nat)
    requires i <= |s| && SortedUpTo(ties, s, i)
    ensures SortedBy(ties, Exchanged(ties, s, i)) && multiset(Exchanged(ties, s, i)) == multiset(s)
    ensures multiset(Modes(Exchanged(ties, s, i))) == multiset(Modes(s))
    decreases |s| - i
  {
    if i < |s| {
      SortedOneMore(ties, s, i);
      PassPermutes(ties, s, i);
      ExchangedSorts(ties, Pass(ties, s, i, i + 1), i + 1);
    } else {
      forall p, q | 0 <= p < q < |s| ensures !Better(ties, s[q], s[p]) {}
    }
  }

  /** The exchange sort yields a descending permutation of its input. */
  lemma {:induction false} ExchangeSortCorrect(ties: bool, s: seq<Candidate>)
    ensures SortedBy(ties, Exchanged(ties, s, 0)) && multiset(Exchanged(ties, s, 0)) == multiset(s)
    ensures multiset(Modes(Exchanged(ties, s, 0))) == multiset(Modes(s))
  {
    ExchangedSorts(ties, s, 0);
  }

  /** It is not stable: a leader found later moves the first of two equals behind the second. */
  lemma ExchangeSortNotStable(x: Candidate, y: Candidate, top: Candidate)
    requires x.score == y.score < top.score
    ensures Exchanged(false, [x, y, top], 0) == [top, y, x]
  {
    var s := [x, y, top];
    assert Swapped(s, 0, 2) == [top, y, x];
    var r := [top, y, x];
    assert Pass(false, s, 0, 1) == Pass(false, s, 0, 2) == Pass(false, r, 0, 3) == r;
    assert Pass(false, r, 1, 2) == Pass(false, r, 1, 3) == r;
    assert Pass(false, r, 2, 3) == r;
    assert Exchanged(false, s, 0) == Exchanged(false, r, 1) == Exchanged(false, r, 2) == Exchanged(false, r, 3);
  }

  // ---------- scoring all modes ----------

  method BoostCap(candidates: array<Candidate>, mode: Mode, amount: real)
    modifies candidates
    ensures forall i :: 0 <= i < candidates.Length ==> candidates[i] == Boosted(old(candidates[i]), mode, amount)
  {
    for i := 0 to candidates.Length
      invariant forall k :: 0 <= k < i ==> candidates[k] == Boosted(old(candidates[k]), mode, amount)
      invariant forall k :: i <= k < candidates.Length ==> candidates[k] == old(candidates[k])
    {
      if candidates[i].mode == mode && !candidates[i].rejected {
        candidates[i] := candidates[i].(score := Clamp01(candidates[i].score + amount));
      }
    }
  }

  method ScoreModes(s: Signals, p: Policy) returns (candidates: array<Candidate>)
    ensures fresh(candidates) && candidates[..] == Exchanged(true, Scored(s, p), 0)
  {
    candidates := new Candidate[|MODES|](i requires 0 <= i < |MODES| => ScoreOneMode(MODES[i], s, p));
    var boosts := BoostsFor(s);
    for b := 0 to |boosts|
      invariant fresh(candidates) && candidates.Length == |MODES|
      invariant forall i :: 0 <= i < |MODES| ==> candidates[i] == BoostedAll(ScoreOneMode(MODES[i], s, p), boosts[..b])
    {
      assert boosts[..b + 1][..b] == boosts[..b];
      BoostCap(candidates, boosts[b].mode, boosts[b].amount);
    }
    assert boosts[..|boosts|] == boosts;
    assert candidates[..] == Scored(s, p);
    ExchangeSort(candidates, true);
  }

  ghost predicate UnitScores(s: seq<Candidate>) {
    forall c :: c in s ==> 0.0 <= c.score <= 1.0
  }

  lemma UnitInPermutation(a: seq<Candidate>, b: seq<Candidate>)
    requires multiset(a) == multiset(b) && UnitScores(a)
    ensures UnitScores(b)
  {
    forall c | c in b ensures c in a {
      assert c in multiset(b);
    }
  }

  lemma ScoredModes(s: Signals, p: Policy)
    ensures Modes(Scored(s, p)) == MODES && UnitScores(Scored(s, p))
  {
    var all := Scored(s, p);
    forall i | 0 <= i < |MODES| ensures all[i].mode == MODES[i] && 0.0 <= all[i].score <= 1.0 {
      RoundedInUnit(PenalizedScore(MODES[i], s, p));
      BoostedAllKeeps(ScoreOneMode(MODES[i], s, p), BoostsFor(s));
    }
  }

  lemma SortedMeans(s: seq<Candidate>, i: nat, j: nat)
    requires SortedBy(true, s) && i < j < |s|
    ensures s[i].score >= s[j].score
                && (s[i].score == s[j].score && s[j].mode == ResearchV2 ==> s[i].mode == ResearchV2)
  {
    assert !Better(true, s[j], s[i]);
  }

  /** The scored list is a permutation of the ten modes with scores in [0,1], in descending order,
      and among equal scores research stands first. */
  lemma ScoreModesCorrect(s: Signals, p: Policy)
    ensures var r := Exchanged(true, Scored(s, p), 0);
            && multiset(Modes(r)) == multiset(MODES) && UnitScores(r) && SortedBy(true, r)
            && (forall i, j :: 0 <= i < j < |r| ==>
                  r[i].score >= r[j].score
                  && (r[i].score == r[j].score && r[j].mode == ResearchV2 ==> r[i].mode == ResearchV2))
  {
    ScoredModes(s, p);
    PermutationCorrect(true, Scored(s, p));
    var r := Exchanged(true, Scored(s, p), 0);
    forall i, j | 0 <= i < j < |r|
      ensures r[i].score >= r[j].score
                  && (r[i].score == r[j].score && r[j].mode == ResearchV2 ==> r[i].mode == ResearchV2)
    {
      SortedMeans(r, i, j);
    }
  }

  lemma {:induction false} PermutationCorrect(ties: bool, s: seq<Candidate>)
    requires UnitScores(s)
    ensures var r := Exchanged(ties, s, 0);
            UnitScores(r) && SortedBy(ties, r) && multiset(Modes(r)) == multiset(Modes(s))
  {
    ExchangeSortCorrect(ties, s);
    UnitInPermutation(s, Exchanged(ties, s, 0));
  }

  // ---------- selection ----------

  /** The mode the older rules would pick gets a lift that grows with complexity. */
  function LegacyBoost(overall: real): real {
    var boost := 0.15 + overall * 0.15;
    if boost > 0.30 then 0.30 else boost
  }

  /** Lifts the first candidate of this mode, rejected or not. */
  function Lifted(s: seq<Candidate>, mode: Mode, amount: real): seq<Candidate> {
    if s == [] then []
    else if s[0].mode == mode then [s[0].(score := Clamp01(s[0].score + amount))] + s[1..]
    else [s[0]] + Lifted(s[1..], mode, amount)
  }

  function FirstAccepted(s: seq<Candidate>): Option<Candidate> {
    if s == [] then None
    else if !s[0].rejected then Some(s[0])
    else FirstAccepted(s[1..])
  }

  /** The final candidate list. */
  function Ranked(s: Signals, p: Policy, legacy: Mode): seq<Candidate> {
    Resorted(Exchanged(true, Scored(s, p), 0), legacy, s.overall)
  }

  function Resorted(scored: seq<Candidate>, legacy: Mode, overall: real): seq<Candidate> {
    if legacy == DirectAnswer || legacy == ReactTool then scored
    else Exchanged(false, Lifted(scored, legacy, LegacyBoost(overall)), 0)
  }

  datatype SelectedReason = AllRejected | ByScore(mode: Mode, score: real)

  /** `reported` is the mode the explanation carries, which may be missing. */
  datatype Selection = Selection(selected: Mode, reported: Option<Mode>, reason: SelectedReason,
                                 cost: real, latencyMs: int, async: bool)

  predicate AsyncRequired(mode: Mode) {
    mode in {Reflection, TreeOfThoughts, Debate, ResearchV2, SwarmWorkflow, SandboxExecution}
  }

  function Selected(ranked: seq<Candidate>, p: Policy): Selection {
    match FirstAccepted(ranked)
    case None => Selection(DirectAnswer, None, AllRejected, 0.0, 0, false)
    case Some(c) =>
      Selection(c.mode, Some(c.mode), if c.mode == DirectAnswer then AllRejected else ByScore(c.mode, c.score),
                c.cost, Truncated(EstimatedLatency(p, c.mode)), AsyncRequired(c.mode))
  }

  method SelectPlannedMode(s: Signals, p: Policy, legacy: Mode) returns (r: Selection, candidates: array<Candidate>)
    ensures fresh(candidates) && candidates[..] == Ranked(s, p, legacy) && r == Selected(Ranked(s, p, legacy), p)
  {
    candidates := ScoreModes(s, p);
    if legacy != DirectAnswer && legacy != ReactTool {
      var boost := 0.15 + s.overall * 0.15;
      if boost > 0.30 {
        boost := 0.30;
      }
      LiftFirst(candidates, legacy, boost);
      ExchangeSort(candidates, false);
    }
    r := Selection(DirectAnswer, None, AllRejected, 0.0, 0, false);
    ghost var ranked := candidates[..];
    for i := 0 to candidates.Length
      invariant candidates[..] == ranked
      invariant r == Selection(DirectAnswer, None, AllRejected, 0.0, 0, false)
      invariant FirstAccepted(ranked) == FirstAccepted(ranked[i..])
    {
      assert ranked[i..][1..] == ranked[i + 1..];
      var c := candidates[i];
      if c.rejected {
        continue;
      }
      r := Selection(c.mode, Some(c.mode), ByScore(c.mode, c.score), c.cost, Truncated(EstimatedLatency(p, c.mode)),
                     AsyncRequired(c.mode));
      break;
    }
    if r.selected == DirectAnswer {
      r := r.(reason := AllRejected);
    }
  }

  method LiftFirst(candidates: array<Candidate>, mode: Mode, amount: real)
    modifies candidates
    ensures candidates[..] == Lifted(old(candidates[..]), mode, amount)
  {
    ghost var before := candidates[..];
    for i := 0 to candidates.Length
      invariant candidates[..] == before
      invariant forall j :: 0 <= j < i ==> before[j].mode != mode
    {
      if candidates[i].mode == mode {
        LiftedIsUpdate(before, i, mode, amount);
        candidates[i] := candidates[i].(score := Clamp01(candidates[i].score + amount));
        return;
      }
    }
    LiftedIsUpdate(before, |before|, mode, amount);
  }

  /** Only the first candidate of the mode is lifted. */
  lemma {:induction false} LiftedIsUpdate(s: seq<Candidate>, i: nat, mode: Mode, amount: real)
    requires i <= |s| && (i < |s| ==> s[i].mode == mode) && forall j :: 0 <= j < i ==> s[j].mode != mode
    ensures Lifted(s, mode, amount) == if i == |s| then s else s[i := s[i].(score := Clamp01(s[i].score + amount))]
  {
    if i > 0 {
      LiftedIsUpdate(s[1..], i - 1, mode, amount);
    }
  }

  lemma {:induction false} LiftedKeeps(s: seq<Candidate>, mode: Mode, amount: real)
    ensures Modes(Lifted(s, mode, amount)) == Modes(s)
    ensures UnitScores(s) ==> UnitScores(Lifted(s, mode, amount))
  {
    if s != [] {
      assert s == [s[0]] + s[1..];
      if s[0].mode != mode {
        LiftedKeeps(s[1..], mode, amount);
        assert Modes(s) == [s[0].mode] + Modes(s[1..]);
        assert Modes(Lifted(s, mode, amount)) == [s[0].mode] + Modes(Lifted(s[1..], mode, amount));
      }
    }
  }

  lemma ResortedCorrect(scored: seq<Candidate>, legacy: Mode, overall: real)
    requires UnitScores(scored) && SortedBy(true, scored)
    ensures var r := Resorted(scored, legacy, overall);
            multiset(Modes(r)) == multiset(Modes(scored)) && UnitScores(r) && SortedBy(false, r)
  {
    if legacy == DirectAnswer || legacy == ReactTool {
      forall i, j | 0 <= i < j < |scored| ensures !Better(false, scored[j], scored[i]) {
        assert !Better(true, scored[j], scored[i]);
      }
    } else {
      LiftedKeeps(scored, legacy, LegacyBoost(overall));
      PermutationCorrect(false, Lifted(scored, legacy, LegacyBoost(overall)));
    }
  }

  /** The final list is still a descending permutation of the ten modes with scores in [0,1]. */
  lemma RankedCorrect(s: Signals, p: Policy, legacy: Mode)
    ensures var r := Ranked(s, p, legacy);
            multiset(Modes(r)) == multiset(MODES) && UnitScores(r) && SortedBy(false, r)
  {
    ScoreModesCorrect(s, p);
    ResortedCorrect(Exchanged(true, Scored(s, p), 0), legacy, s.overall);
  }

  lemma {:induction false} FirstAcceptedExact(s: seq<Candidate>)
    requires SortedBy(false, s)
    ensures match FirstAccepted(s)
            case None => forall c :: c in s ==> c.rejected
            case Some(c) => c in s && !c.rejected && forall d :: d in s && !d.rejected ==> d.score <= c.score
  {
    if s != [] {
      assert s == [s[0]] + s[1..];
      if s[0].rejected {
        FirstAcceptedExact(s[1..]);
      } else {
        forall d | d in s && !d.rejected ensures d.score <= s[0].score {
          var i :| 0 <= i < |s| && s[i] == d;
        }
      }
    }
  }

  ghost predicate BestAccepted(ranked: seq<Candidate>, mode: Mode) {
    exists c :: c in ranked && !c.rejected && c.mode == mode &&
      forall d :: d in ranked && !d.rejected ==> d.score <= c.score
  }

  lemma SelectedIsBest(ranked: seq<Candidate>, p: Policy)
    requires SortedBy(false, ranked)
    ensures if forall c :: c in ranked ==> c.rejected then Selected(ranked, p).selected == DirectAnswer
            else BestAccepted(ranked, Selected(ranked, p).selected)
  {
    FirstAcceptedExact(ranked);
  }

  /** With the classifier inactive: the selected mode is that of a non-rejected candidate with the
      highest score, or direct_answer when every candidate is rejected. */
  lemma SelectionIsBestAccepted(s: Signals, p: Policy, legacy: Mode)
    ensures var ranked := Ranked(s, p, legacy);
            if forall c :: c in ranked ==> c.rejected then Selected(ranked, p).selected == DirectAnswer
            else BestAccepted(ranked, Selected(ranked, p).selected)
  {
    RankedCorrect(s, p, legacy);
    SelectedIsBest(Ranked(s, p, legacy), p);
  }

  /** What the rejection rules let pass: a mode whose estimates keep to the budget and to the
      latency ceiling of the signals, and whose capability is not both required and forbidden. */
  predicate Admitted(mode: Mode, s: Signals, p: Policy) {
    && (if s.budgetUsd > 0.0 then EstimatedCost(p, mode) <= s.budgetUsd else EstimatedCost(p, mode) <= 0.01)
    && (s.maxLatencyMs > 0 ==> Truncated(EstimatedLatency(p, mode)) <= s.maxLatencyMs)
    && (mode == SandboxExecution && s.requiresSandbox ==> s.allowSandbox)
    && (mode == ResearchV2 && s.requiresResearch ==> s.allowResearch)
    && (mode == ReactTool && s.requiresTools ==> s.allowTools)
  }

  /** Cost, rejection and its reason are those of the candidate's mode. */
  ghost predicate Honest(s: Signals, p: Policy, c: Candidate) {
    && (c.rejected <==> !Admitted(c.mode, s, p))
    && c.reason == Rejection(c.mode, s, p) && c.cost == EstimatedCost(p, c.mode)
  }

  ghost predicate AllHonest(s: Signals, p: Policy, cs: seq<Candidate>) {
    forall c :: c in cs ==> Honest(s, p, c)
  }

  lemma HonestInPermutation(s: Signals, p: Policy, a: seq<Candidate>, b: seq<Candidate>)
    requires multiset(a) == multiset(b) && AllHonest(s, p, a)
    ensures AllHonest(s, p, b)
  {
    forall c | c in b ensures c in a { assert c in multiset(b); }
  }

  lemma ScoredHonest(s: Signals, p: Policy)
    ensures AllHonest(s, p, Scored(s, p))
  {
    forall i | 0 <= i < |MODES| ensures Honest(s, p, Scored(s, p)[i]) {
      BoostedAllKeeps(ScoreOneMode(MODES[i], s, p), BoostsFor(s));
    }
  }

  lemma {:induction false} LiftedHonest(s: Signals, p: Policy, cs: seq<Candidate>, mode: Mode, amount: real)
    requires AllHonest(s, p, cs)
    ensures AllHonest(s, p, Lifted(cs, mode, amount))
  {
    if cs != [] {
      assert cs[0] in cs && forall c :: c in cs[1..] ==> c in cs;
      LiftedHonest(s, p, cs[1..], mode, amount);
    }
  }

  /** Through boosts, lift and both sorts every candidate keeps the verdict of its own mode: it is
      rejected exactly if the rules do not let the mode pass. */
  lemma RejectedIffNotAdmitted(s: Signals, p: Policy, legacy: Mode)
    ensures AllHonest(s, p, Ranked(s, p, legacy))
  {
    var scored := Exchanged(true, Scored(s, p), 0);
    ScoredHonest(s, p);
    ExchangeSortCorrect(true, Scored(s, p));
    HonestInPermutation(s, p, Scored(s, p), scored);
    if legacy != DirectAnswer && legacy != ReactTool {
      var lifted := Lifted(scored, legacy, LegacyBoost(s.overall));
      LiftedHonest(s, p, scored, legacy, LegacyBoost(s.overall));
      ExchangeSortCorrect(false, lifted);
      HonestInPermutation(s, p, lifted, Exchanged(false, lifted, 0));
    }
  }

  lemma CandidateOf(ranked: seq<Candidate>, modes: seq<Mode>, mode: Mode) returns (c: Candidate)
    requires multiset(Modes(ranked)) == multiset(modes) && mode in modes
    ensures c in ranked && c.mode == mode
  {
    assert mode in multiset(Modes(ranked));
    var i :| 0 <= i < |ranked| && Modes(ranked)[i] == mode;
    c := ranked[i];
  }

  lemma EveryModeListed(mode: Mode)
    ensures mode in MODES
  {
    assert forall i :: 0 <= i < |MODES| ==> MODES[i] in MODES;
    match mode
    case DirectAnswer => assert MODES[0] == mode;
    case RagAnswer => assert MODES[1] == mode;
    case ReactTool => assert MODES[2] == mode;
    case DagWorkflow => assert MODES[3] == mode;
    case Reflection => assert MODES[4] == mode;
    case TreeOfThoughts => assert MODES[5] == mode;
    case Debate => assert MODES[6] == mode;
    case ResearchV2 => assert MODES[7] == mode;
    case SwarmWorkflow => assert MODES[8] == mode;
    case SandboxExecution => assert MODES[9] == mode;
  }

  /** The mode selected by score is one the rules let pass whenever there is one; when there is none
      it is direct_answer, as a fallback. */
  lemma SelectionIsAdmitted(s: Signals, p: Policy, legacy: Mode)
    ensures var selected := Selected(Ranked(s, p, legacy), p).selected;
            if exists mode :: Admitted(mode, s, p) then Admitted(selected, s, p) else selected == DirectAnswer
  {
    var ranked := Ranked(s, p, legacy);
    SelectionIsBestAccepted(s, p, legacy);
    RejectedIffNotAdmitted(s, p, legacy);
    if mode :| Admitted(mode, s, p) {
      RankedCorrect(s, p, legacy);
      EveryModeListed(mode);
      var c := CandidateOf(ranked, MODES, mode);
      assert Honest(s, p, c);
    }
  }

  /** The text "all candidates rejected" is there exactly if every candidate is rejected. */
  ghost predicate BlameIsTrue(ranked: seq<Candidate>, p: Policy) {
    Selected(ranked, p).reason == AllRejected <==> forall c :: c in ranked ==> c.rejected
  }

  /** The explanation names a mode exactly if some candidate was accepted. Its reason is untrue
      exactly if the first accepted candidate is direct_answer's. */
  lemma {:induction false} ExplanationGaps(ranked: seq<Candidate>, p: Policy)
    requires SortedBy(false, ranked)
    ensures Selected(ranked, p).reported == Some(Selected(ranked, p).selected) <==>
            exists c :: c in ranked && !c.rejected
    ensures BlameIsTrue(ranked, p) <==>
            !(FirstAccepted(ranked).Some? && FirstAccepted(ranked).value.mode == DirectAnswer)
  {
    FirstAcceptedExact(ranked);
  }

  lemma {:induction false} FirstAcceptedAt(s: seq<Candidate>) returns (i: nat)
    requires FirstAccepted(s).Some?
    ensures i < |s| && s[i] == FirstAccepted(s).value && !s[i].rejected && forall j :: 0 <= j < i ==> s[j].rejected
  {
    if s[0].rejected {
      var k := FirstAcceptedAt(s[1..]);
      i := k + 1;
    } else {
      i := 0;
    }
  }

  /** Position `i` holds direct_answer, let pass, and no mode before it is. */
  ghost predicate LeadsAccepted(ranked: seq<Candidate>, s: Signals, p: Policy, i: nat) {
    && i < |ranked| && ranked[i].mode == DirectAnswer && Admitted(DirectAnswer, s, p)
    && forall j :: 0 <= j < i ==> !Admitted(ranked[j].mode, s, p)
  }

  lemma {:induction false} AcceptedLeads(ranked: seq<Candidate>, s: Signals, p: Policy)
    requires AllHonest(s, p, ranked)
    ensures (FirstAccepted(ranked).Some? && FirstAccepted(ranked).value.mode == DirectAnswer) <==>
            exists i: nat :: LeadsAccepted(ranked, s, p, i)
  {
    forall j | 0 <= j < |ranked| ensures ranked[j].rejected <==> !Admitted(ranked[j].mode, s, p) {
      assert ranked[j] in ranked;
    }
    if FirstAccepted(ranked).Some? {
      var i := FirstAcceptedAt(ranked);
      if ranked[i].mode == DirectAnswer { assert LeadsAccepted(ranked, s, p, i); }
      if k: nat :| LeadsAccepted(ranked, s, p, k) { assert k == i; }
    } else {
      NoneAccepted(ranked);
    }
  }

  lemma {:induction false} NoneAccepted(s: seq<Candidate>)
    requires FirstAccepted(s).None?
    ensures forall i :: 0 <= i < |s| ==> s[i].rejected
  {
    if s != [] { NoneAccepted(s[1..]); }
  }

  /** In terms of the signals: the reason is untrue exactly if the rules let direct_answer pass and
      no mode before it in the final list. */
  lemma BlameIsTrueIff(s: Signals, p: Policy, legacy: Mode)
    ensures BlameIsTrue(Ranked(s, p, legacy), p) <==> !exists i: nat :: LeadsAccepted(Ranked(s, p, legacy), s, p, i)
  {
    RankedCorrect(s, p, legacy);
    RejectedIffNotAdmitted(s, p, legacy);
    ExplanationGaps(Ranked(s, p, legacy), p);
    AcceptedLeads(Ranked(s, p, legacy), s, p);
  }

  /** Candidate `c` is let pass and scores higher than direct_answer. */
  ghost predicate Outscores(ranked: seq<Candidate>, s: Signals, p: Policy, c: Candidate) {
    c in ranked && Admitted(c.mode, s, p) && forall d :: d in ranked && d.mode == DirectAnswer ==> d.score < c.score
  }

  /** Every other mode that is let pass scores lower than direct_answer. */
  ghost predicate Unrivalled(ranked: seq<Candidate>, s: Signals, p: Policy) {
    forall c, d :: c in ranked && d in ranked && d.mode == DirectAnswer && c.mode != DirectAnswer ==>
      Admitted(c.mode, s, p) ==> c.score < d.score
  }

  /** In terms of scores: the reason is true whenever a mode that is let pass outscores
      direct_answer, and untrue whenever direct_answer is let pass and outscores all others that
      are. Between the two the places in the list decide. */
  lemma BlameByScore(s: Signals, p: Policy, legacy: Mode)
    ensures (exists c :: Outscores(Ranked(s, p, legacy), s, p, c)) ==> BlameIsTrue(Ranked(s, p, legacy), p)
    ensures Admitted(DirectAnswer, s, p) && Unrivalled(Ranked(s, p, legacy), s, p) ==>
              !BlameIsTrue(Ranked(s, p, legacy), p)
  {
    var ranked := Ranked(s, p, legacy);
    RankedCorrect(s, p, legacy);
    RejectedIffNotAdmitted(s, p, legacy);
    ExplanationGaps(ranked, p);
    FirstAcceptedExact(ranked);
    var direct := CandidateOf(ranked, MODES, DirectAnswer);
    assert Honest(s, p, direct);
    if FirstAccepted(ranked).Some? { assert Honest(s, p, FirstAccepted(ranked).value); }
    if c :| Outscores(ranked, s, p, c) { assert Honest(s, p, c); }
  }

  /** A request without any needs, one dollar and no policy but a base score for `best`. */
  ghost predicate IsPlain(s: Signals, p: Policy, best: Mode) {
    && (forall i :: 0 <= i < 10 ==> CapabilitySignals(s)[i] == 0.0) && s.overall == 0.0 && s.approvalNeed == 0.0
    && !s.requiresRag && !s.requiresTools && !s.requiresResearch && !s.requiresCitations && !s.requiresSandbox
    && s.budgetUsd == 1.0 && s.maxLatencyMs == 30000
    && p == PlainPolicy(best)
  }

  function PlainPolicy(best: Mode): Policy {
    Policy(map[best := NO_WEIGHTS.(base := 0.5)], map[], map[])
  }

  function PlainSignals(allowed: bool): Signals {
    Signals(0.0, 0.0, 0.0, 0.0, 0.0, 0.0, 0.0, 0.0, 0.0, 0.0, 0.0, 0.0,
            false, false, false, false, false, allowed, allowed, allowed, 1.0, 30000)
  }

  lemma PlainRequest(best: Mode, allowed: bool)
    ensures IsPlain(PlainSignals(allowed), PlainPolicy(best), best)
  {
    assert forall i :: 0 <= i < 10 ==> CapabilitySignals(PlainSignals(allowed))[i] == 0.0;
  }

  function PlainCandidate(mode: Mode, best: Mode): Candidate {
    Candidate(mode, if mode == best then 0.5 else 0.0, 0.05, false, NoReason)
  }

  lemma {:induction false} SilentSum(weights: seq<real>, values: seq<real>)
    requires |weights| == |values| && forall i :: 0 <= i < |values| ==> values[i] == 0.0
    ensures WeightedSum(weights, values) == 0.0
  {
    if weights != [] { SilentSum(weights[..|weights| - 1], values[..|values| - 1]); }
  }

  lemma PlainRaw(mode: Mode, s: Signals, p: Policy, best: Mode)
    requires IsPlain(s, p, best)
    ensures RawScore(mode, s, WeightsOf(mode, p)) == PlainCandidate(mode, best).score
  {
    SilentSum(CapabilityWeights(WeightsOf(mode, p)), CapabilitySignals(s));
  }

  lemma PlainPenalties(raw: real, mode: Mode, s: Signals, p: Policy, best: Mode)
    requires IsPlain(s, p, best) && 0.0 <= raw <= 1.0
    ensures Penalized(raw, mode, s.budgetUsd, s.maxLatencyMs, p) == raw
  {
  }

  lemma RoundedHalf(v: real)
    requires v == 0.0 || v == 0.5
    ensures Rounded(v) == v
  {
    assert (v * 100.0 + 0.5).Floor == if v == 0.0 then 0 else 50;
  }

  lemma PlainScore(mode: Mode, s: Signals, p: Policy, best: Mode)
    requires IsPlain(s, p, best)
    ensures ScoreOneMode(mode, s, p) == PlainCandidate(mode, best)
  {
    var raw := PlainCandidate(mode, best).score;
    PlainRaw(mode, s, p, best);
    PlainPenalties(raw, mode, s, p, best);
    RoundedHalf(raw);
  }

  lemma PlainScored(s: Signals, p: Policy, best: Mode, i: nat)
    requires IsPlain(s, p, best) && i < |MODES|
    ensures Scored(s, p)[i] == PlainCandidate(MODES[i], best)
  {
    assert CapabilitySignals(s)[0] == CapabilitySignals(s)[7] == CapabilitySignals(s)[6]
           == CapabilitySignals(s)[8] == 0.0;
    assert BoostsFor(s) == [];
    PlainScore(MODES[i], s, p, best);
  }

  lemma PlainRanked(s: Signals, p: Policy, best: Mode, c: Candidate)
    requires IsPlain(s, p, best)
    ensures c in Ranked(s, p, DirectAnswer) ==> c == PlainCandidate(c.mode, best)
    ensures PlainCandidate(best, best) in Ranked(s, p, DirectAnswer)
  {
    var scored := Scored(s, p);
    SameMembers(scored, Exchanged(true, scored, 0), true);
    EveryModeListed(best);
    var k :| 0 <= k < |MODES| && MODES[k] == best;
    PlainScored(s, p, best, k);
    assert scored[k] in scored;
    if c in scored {
      var i :| 0 <= i < |scored| && scored[i] == c;
      PlainScored(s, p, best, i);
    }
  }

  lemma {:induction false} BestIsFirst(ranked: seq<Candidate>, best: Mode)
    requires SortedBy(false, ranked) && PlainCandidate(best, best) in ranked
    requires forall c :: c in ranked ==> c == PlainCandidate(c.mode, best)
    ensures (forall c :: c in ranked ==> !c.rejected) && FirstAccepted(ranked) == Some(PlainCandidate(best, best))
  {
    FirstAcceptedExact(ranked);
  }

  lemma RankedSorted(s: Signals, p: Policy, legacy: Mode)
    ensures SortedBy(false, Ranked(s, p, legacy))
  {
    RankedCorrect(s, p, legacy);
  }

  lemma PlainAreRanked(s: Signals, p: Policy, best: Mode, ranked: seq<Candidate>)
    requires IsPlain(s, p, best) && ranked == Ranked(s, p, DirectAnswer)
    ensures forall c :: c in ranked ==> c == PlainCandidate(c.mode, best)
    ensures PlainCandidate(best, best) in ranked
  {
    forall c | c in ranked ensures c == PlainCandidate(c.mode, best) { PlainRanked(s, p, best, c); }
    PlainRanked(s, p, best, PlainCandidate(best, best));
  }

  lemma PlainSelectsBest(s: Signals, p: Policy, best: Mode)
    requires IsPlain(s, p, best)
    ensures var ranked := Ranked(s, p, DirectAnswer);
            (forall c :: c in ranked ==> !c.rejected) && FirstAccepted(ranked) == Some(PlainCandidate(best, best))
  {
    var ranked := Ranked(s, p, DirectAnswer);
    PlainAreRanked(s, p, best, ranked);
    RankedSorted(s, p, DirectAnswer);
    BestIsFirst(ranked, best);
  }

  lemma PlainIsBlamed(s: Signals, p: Policy)
    requires IsPlain(s, p, DirectAnswer)
    ensures var ranked := Ranked(s, p, DirectAnswer);
            && (forall c :: c in ranked ==> !c.rejected)
            && Selected(ranked, p).reported == Some(DirectAnswer) && Selected(ranked, p).reason == AllRejected
  {
    PlainSelectsBest(s, p, DirectAnswer);
  }

  /** Such a request: nothing is rejected, direct_answer is selected on its score, and the
      explanation says that all candidates were rejected. */
  lemma BlamedThoughAccepted() returns (s: Signals, p: Policy)
    ensures IsPlain(s, p, DirectAnswer)
    ensures var ranked := Ranked(s, p, DirectAnswer);
            && (forall c :: c in ranked ==> !c.rejected)
            && Selected(ranked, p).reported == Some(DirectAnswer) && Selected(ranked, p).reason == AllRejected
  {
    s, p := PlainSignals(true), PlainPolicy(DirectAnswer);
    PlainRequest(DirectAnswer, true);
    PlainIsBlamed(s, p);
  }

  lemma {:induction false} SameMembers(s: seq<Candidate>, sorted: seq<Candidate>, ties: bool)
    requires sorted == Exchanged(ties, s, 0)
    ensures forall c :: c in sorted <==> c in s
  {
    ExchangeSortCorrect(ties, s);
    forall c ensures c in sorted <==> c in s { assert c in multiset(s) <==> c in multiset(sorted); }
  }

  // ---------- blending in LLM scores ----------

  /** What the LLM said about a mode counts with 40%, clamped; silence changes nothing. Names that
      belong to no mode are ignored. */
  function Blended(c: Candidate, llm: map<string, real>): Candidate {
    if Name(c.mode) in llm then c.(score := 0.6 * c.score + 0.4 * Clamp01(llm[Name(c.mode)])) else c
  }

  function BlendedAll(s: seq<Candidate>, llm: map<string, real>): seq<Candidate> {
    seq(|s|, i requires 0 <= i < |s| => Blended(s[i], llm))
  }

  function Merged(s: seq<Candidate>, llm: map<string, real>): seq<Candidate> {
    if |llm| == 0 || s == [] then s else Exchanged(false, BlendedAll(s, llm), 0)
  }

  method MergeLLMScores(candidates: seq<Candidate>, llm: map<string, real>) returns (r: seq<Candidate>)
    ensures r == Merged(candidates, llm)
  {
    if |llm| == 0 || |candidates| == 0 {
      return candidates;
    }
    var out := new Candidate[|candidates|](i requires 0 <= i < |candidates| => candidates[i]);
    for i := 0 to |candidates|
      invariant forall k :: 0 <= k < i ==> out[k] == Blended(candidates[k], llm)
      invariant forall k :: i <= k < |candidates| ==> out[k] == candidates[k]
    {
      if Name(candidates[i].mode) !in llm {
        continue;
      }
      var llmScore := llm[Name(candidates[i].mode)];
      if llmScore < 0.0 {
        llmScore := 0.0;
      }
      if llmScore > 1.0 {
        llmScore := 1.0;
      }
      out[i] := out[i].(score := 0.6 * candidates[i].score + 0.4 * llmScore);
    }
    assert out[..] == BlendedAll(candidates, llm);
    ExchangeSort(out, false);
    r := out[..];
  }

  /** Merging keeps the modes, keeps scores in [0,1] whatever the LLM says, and sorts; without
      LLM scores the list comes back as it is. */
  lemma MergeCorrect(s: seq<Candidate>, llm: map<string, real>)
    requires UnitScores(s)
    ensures var r := Merged(s, llm);
            && multiset(Modes(r)) == multiset(Modes(s)) && UnitScores(r)
            && (|llm| != 0 ==> SortedBy(false, r) && multiset(r) == multiset(BlendedAll(s, llm)))
            && (|llm| == 0 ==> r == s)
  {
    var blended := BlendedAll(s, llm);
    assert Modes(blended) == Modes(s);
    forall i | 0 <= i < |s| ensures 0.0 <= blended[i].score <= 1.0 { assert s[i] in s; }
    assert UnitScores(blended);
    ExchangeSortCorrect(false, blended);
    UnitInPermutation(blended, Exchanged(false, blended, 0));
  }

  /** `d` is `c` with its score moved two fifths of the way to the LLM's for its mode, which outside
      [0,1] counts like the nearer bound; a mode the LLM does not name keeps its score. */
  ghost predicate Moved(c: Candidate, llm: map<string, real>, d: Candidate) {
    && d.mode == c.mode && d.cost == c.cost && d.rejected == c.rejected && d.reason == c.reason
    && if Name(c.mode) !in llm then d.score == c.score
       else
         var x := llm[Name(c.mode)];
         && (0.0 <= x <= 1.0 ==> d.score - c.score == 0.4 * (x - c.score))
         && (x < 0.0 ==> d.score - c.score == 0.4 * (0.0 - c.score))
         && (x > 1.0 ==> d.score - c.score == 0.4 * (1.0 - c.score))
  }

  /** What merging makes of every candidate, before the sort. */
  lemma MergeMoves(s: seq<Candidate>, llm: map<string, real>) returns (moved: seq<Candidate>)
    requires UnitScores(s)
    ensures |moved| == |s| && forall i :: 0 <= i < |s| ==> Moved(s[i], llm, moved[i])
    ensures multiset(Merged(s, llm)) == multiset(moved)
  {
    moved := BlendedAll(s, llm);
    MergeCorrect(s, llm);
    if |llm| == 0 {
      assert moved == s;
    }
  }

  /** The bound on the LLM's influence is exact: whatever it scores, `a` keeps a strictly higher
      blended score than `b` exactly if its heuristic lead exceeds two thirds. */
  lemma LeadIsSafeIff(a: Candidate, b: Candidate)
    requires 0.0 <= a.score <= 1.0 && 0.0 <= b.score <= 1.0 && a.mode != b.mode
    ensures (forall llm: map<string, real> :: Blended(a, llm).score > Blended(b, llm).score) <==>
              a.score - b.score > 2.0 / 3.0
  {
    NamesDiffer(a.mode, b.mode);
    var worst := map[Name(a.mode) := 0.0, Name(b.mode) := 1.0];
    assert Blended(a, worst).score == 0.6 * a.score && Blended(b, worst).score == 0.6 * b.score + 0.4;
    if a.score - b.score > 2.0 / 3.0 {
      forall llm: map<string, real> ensures Blended(a, llm).score > Blended(b, llm).score {
        assert 0.6 * (a.score - b.score) > 0.4;
      }
    }
  }

  /** A candidate whose heuristic lead over another exceeds two thirds stands before it in the
      merged list, whichever of the two the LLM scored. */
  lemma SafeLeadRanksAhead(s: seq<Candidate>, llm: map<string, real>, a: Candidate, b: Candidate, i: nat, j: nat)
    requires UnitScores(s) && |llm| != 0 && a in s && b in s && a.score - b.score > 2.0 / 3.0 && a.mode != b.mode
    requires i < |Merged(s, llm)| && j < |Merged(s, llm)|
    requires Merged(s, llm)[i] == Blended(a, llm) && Merged(s, llm)[j] == Blended(b, llm)
    ensures i < j
  {
    LeadIsSafeIff(a, b);
    MergeCorrect(s, llm);
    var r := Merged(s, llm);
    assert r[i].score > r[j].score;
  }
}
