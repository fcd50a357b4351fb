/** The second opinion of an LLM classifier on a selected mode: its scores are blended in and the
    leading candidate is taken, with one rule that shall keep a selected sandbox selected. The list
    it is given holds all modes as scored, or two modes if a keyword picked one.
 */
module ModeArbiter {
  import MergeStability
  import opened ModePermissions
  import opened ModeRouter
  import opened Wrappers

  /** The classifier's answer; `named` is the mode it names, empty for none. */
  datatype Opinion = Opinion(fallback: bool, named: string, scores: map<string, real>)

  /** The classifier names another mode in place of a selected sandbox. */
  predicate TriesToDowngrade(selected: Mode, o: Opinion) {
    selected == SandboxExecution && o.named != "" && o.named != Name(SandboxExecution)
  }

  function LeaderOr(merged: seq<Candidate>, selected: Mode): Mode {
    if merged != [] && !merged[0].rejected then merged[0].mode else selected
  }

  function Arbitrated(selected: Mode, candidates: seq<Candidate>, o: Opinion): (Mode, seq<Candidate>) {
    if TriesToDowngrade(selected, o) || o.fallback then (selected, candidates)
    else (LeaderOr(Merged(candidates, o.scores), selected), Merged(candidates, o.scores))
  }

  method Arbitrate(selected: Mode, candidates: seq<Candidate>, o: Opinion) returns (r: Mode, merged: seq<Candidate>)
    ensures (r, merged) == Arbitrated(selected, candidates, o)
  {
    if selected == SandboxExecution && o.named != "" && o.named != Name(SandboxExecution) {
      return selected, candidates;
    }
    if o.fallback {
      return selected, candidates;
    }
    merged := MergeLLMScores(candidates, o.scores);
    r := selected;
    if |merged| > 0 && !merged[0].rejected {
      r := merged[0].mode;
    }
  }

  // ---------- the two lists ----------

  /** The mode put behind the one a keyword picks. */
  function KeywordFallback(pick: Mode): Mode {
    match pick
    case SandboxExecution => ReactTool
    case ResearchV2 => DagWorkflow
    case TreeOfThoughts => Reflection
    case Debate => TreeOfThoughts
    case Reflection => DagWorkflow
    case _ => DirectAnswer
  }

  function Unjudged(mode: Mode, score: real, p: Policy): Candidate {
    Candidate(mode, score, EstimatedCost(p, mode), false, NoReason)
  }

  /** The list for a keyword's pick. The rejection rules are not consulted for it. */
  function KeywordCandidates(pick: Mode, p: Policy): seq<Candidate> {
    var fallback := KeywordFallback(pick);
    [Unjudged(pick, 0.85, p)] + if fallback == pick then [] else [Unjudged(fallback, 0.40, p)]
  }

  method BuildKeywordCandidates(pick: Mode, p: Policy) returns (out: seq<Candidate>)
    ensures out == KeywordCandidates(pick, p)
  {
    out := [Candidate(pick, 0.85, EstimatedCost(p, pick), false, NoReason)];
    var fallback;
    match pick {
      case SandboxExecution => fallback := ReactTool;
      case ResearchV2 => fallback := DagWorkflow;
      case TreeOfThoughts => fallback := Reflection;
      case Debate => fallback := TreeOfThoughts;
      case Reflection => fallback := DagWorkflow;
      case _ => fallback := DirectAnswer;
    }
    if fallback != pick {
      out := out + [Candidate(fallback, 0.40, EstimatedCost(p, fallback), false, NoReason)];
    }
  }

  /** The mode before the classifier is heard: the keyword's pick if there is one. */
  function Picked(keyword: Option<Mode>, s: Signals, p: Policy, legacy: Mode): Mode {
    match keyword
    case Some(pick) => pick
    case None => SelectedMode(s, p, legacy)
  }

  function Shortlist(keyword: Option<Mode>, s: Signals, p: Policy, legacy: Mode): seq<Candidate> {
    match keyword
    case Some(pick) => KeywordCandidates(pick, p)
    case None => Ranked(s, p, legacy)
  }

  /** Candidates of one mode are all rejected or all accepted. */
  ghost predicate OneVerdict(list: seq<Candidate>) {
    forall c, d :: c in list && d in list && c.mode == d.mode ==> c.rejected == d.rejected
  }

  /** What the arbiter may rely on in the list it is given. */
  ghost predicate Listed(list: seq<Candidate>) {
    UnitScores(list) && SortedBy(false, list) && OneVerdict(list)
  }

  lemma ShortlistIsListed(keyword: Option<Mode>, s: Signals, p: Policy, legacy: Mode)
    ensures Listed(Shortlist(keyword, s, p, legacy))
  {
    if keyword.None? {
      RankedCorrect(s, p, legacy);
      RejectedIffNotAdmitted(s, p, legacy);
      forall c, d | c in Ranked(s, p, legacy) && d in Ranked(s, p, legacy) && c.mode == d.mode
        ensures c.rejected == d.rejected
      {
        assert Honest(s, p, c) && Honest(s, p, d);
      }
    }
  }

  // ---------- whatever the classifier says ----------

  /** What `c` was before the scores were blended in. */
  lemma MergedFrom(s: seq<Candidate>, scores: map<string, real>, c: Candidate) returns (before: Candidate)
    requires UnitScores(s) && c in Merged(s, scores)
    ensures before in s && c == Blended(before, scores)
  {
    if |scores| == 0 {
      before := c;
    } else {
      MergeCorrect(s, scores);
      assert c in multiset(Merged(s, scores));
      var i :| 0 <= i < |s| && BlendedAll(s, scores)[i] == c;
      before := s[i];
    }
  }

  /** Where a candidate ends up. */
  lemma MergedHolds(s: seq<Candidate>, scores: map<string, real>, c: Candidate)
    requires UnitScores(s) && c in s
    ensures Blended(c, scores) in Merged(s, scores)
  {
    if |scores| != 0 {
      MergeCorrect(s, scores);
      var i :| 0 <= i < |s| && s[i] == c;
      assert BlendedAll(s, scores)[i] == Blended(c, scores);
      assert Blended(c, scores) in multiset(BlendedAll(s, scores));
    }
  }

  lemma MergedIsSorted(s: seq<Candidate>, scores: map<string, real>)
    requires UnitScores(s) && SortedBy(false, s)
    ensures SortedBy(false, Merged(s, scores))
  {
    MergeCorrect(s, scores);
  }

  ghost predicate Standing(s: Signals, p: Policy, ranked: seq<Candidate>) {
    UnitScores(ranked) && SortedBy(false, ranked) && AllHonest(s, p, ranked)
  }

  lemma RankedStands(s: Signals, p: Policy, legacy: Mode)
    ensures Standing(s, p, Ranked(s, p, legacy))
  {
    RankedCorrect(s, p, legacy);
    RejectedIffNotAdmitted(s, p, legacy);
  }

  lemma MergedStands(s: Signals, p: Policy, ranked: seq<Candidate>, scores: map<string, real>)
    requires Standing(s, p, ranked)
    ensures SortedBy(false, Merged(ranked, scores)) && AllHonest(s, p, Merged(ranked, scores))
  {
    MergedIsSorted(ranked, scores);
    forall c | c in Merged(ranked, scores) ensures Honest(s, p, c) {
      var before := MergedFrom(ranked, scores, c);
    }
  }

  /** `mode` is that of an accepted candidate with the highest score. */
  ghost predicate Leads(merged: seq<Candidate>, mode: Mode) {
    exists c :: c in merged && !c.rejected && c.mode == mode && forall d :: d in merged ==> d.score <= c.score
  }

  lemma LeaderLeads(s: Signals, p: Policy, merged: seq<Candidate>, selected: Mode)
    requires SortedBy(false, merged) && AllHonest(s, p, merged)
    ensures var r := LeaderOr(merged, selected); r == selected || (Admitted(r, s, p) && Leads(merged, r))
  {
    if merged != [] && !merged[0].rejected {
      assert merged[0] in merged && Honest(s, p, merged[0]);
      forall d | d in merged ensures d.score <= merged[0].score {
        var i :| 0 <= i < |merged| && merged[i] == d;
      }
    }
  }

  /** Nothing changed, or the leading candidate was taken, which the rules let pass. */
  ghost predicate TakesLeader(s: Signals, p: Policy, selected: Mode, after: (Mode, seq<Candidate>)) {
    after.0 == selected || (Admitted(after.0, s, p) && Leads(after.1, after.0))
  }

  lemma ArbitratedTakesLeader(s: Signals, p: Policy, selected: Mode, ranked: seq<Candidate>, o: Opinion)
    requires Standing(s, p, ranked)
    ensures TakesLeader(s, p, selected, Arbitrated(selected, ranked, o))
  {
    MergedStands(s, p, ranked, o.scores);
    LeaderLeads(s, p, Merged(ranked, o.scores), selected);
  }

  /** Whatever the classifier says of a scored list, the outcome is the router's own selection or the
      accepted candidate with the highest blended score. So there the classifier cannot get a mode
      selected that the rules reject: the outcome is one they let pass whenever there is one, and
      direct_answer otherwise. */
  lemma OutcomeIsAdmitted(s: Signals, p: Policy, legacy: Mode, o: Opinion)
    ensures var selected := SelectedMode(s, p, legacy);
            var after := Arbitrated(selected, Ranked(s, p, legacy), o);
            && TakesLeader(s, p, selected, after)
            && if exists mode :: Admitted(mode, s, p) then Admitted(after.0, s, p) else after.0 == DirectAnswer
  {
    RankedStands(s, p, legacy);
    ArbitratedTakesLeader(s, p, SelectedMode(s, p, legacy), Ranked(s, p, legacy), o);
    SelectionIsAdmitted(s, p, legacy);
  }

  // ---------- what it can say ----------

  /** Full score for one mode, none for the others. */
  function Favouring(mode: Mode, modes: seq<Mode>): map<string, real> {
    if modes == [] then map[]
    else Favouring(mode, modes[1..])[Name(modes[0]) := if modes[0] == mode then 1.0 else 0.0]
  }

  lemma {:induction false} FavouringScores(mode: Mode, modes: seq<Mode>, m: Mode)
    requires m in modes
    ensures Name(m) in Favouring(mode, modes) && Favouring(mode, modes)[Name(m)] == if m == mode then 1.0 else 0.0
  {
    if modes[0] != m {
      NamesDiffer(m, modes[0]);
      FavouringScores(mode, modes[1..], m);
    }
  }

  /** No candidate leads `c` by two thirds. */
  ghost predicate CloseBehind(s: seq<Candidate>, c: Candidate) {
    forall d :: d in s && d.mode != c.mode ==> d.score - c.score < 2.0 / 3.0
  }

  /** Position `k` holds the first of the best. */
  ghost predicate FirstBest(t: seq<Candidate>, k: nat) {
    && k < |t| && (forall j :: 0 <= j < k ==> t[j].score < t[k].score)
    && forall j :: 0 <= j < |t| ==> t[j].score <= t[k].score
  }

  /** A second candidate no better than the first changes nothing. */
  lemma SecondIsNoBetter(x: Candidate, y: Candidate, rest: seq<Candidate>, i: nat, k: nat)
    requires y.score <= x.score && FirstBest([x] + rest, i) && k == if i == 0 then 0 else i + 1
    ensures FirstBest([x] + ([y] + rest), k) && ([x] + ([y] + rest))[k] == ([x] + rest)[i]
  {
    var t, t' := [x] + rest, [x] + ([y] + rest);
    assert t'[0] == t[0] == x && t'[1] == y && forall j :: 2 <= j < |t'| ==> t'[j] == t[j - 1];
  }

  lemma {:induction false} SiftFindsFirst(x: Candidate, s: seq<Candidate>) returns (k: nat)
    ensures FirstBest([x] + s, k) && ([x] + s)[k] == MergeStability.Sift(x, s).best
    decreases |s|
  {
    if s == [] {
      k := 0;
    } else if s[0].score > x.score {
      var i := SiftFindsFirst(s[0], s[1..]);
      assert s == [s[0]] + s[1..];
      k := i + 1;
    } else {
      var i := SiftFindsFirst(x, s[1..]);
      k := if i == 0 then 0 else i + 1;
      SecondIsNoBetter(x, s[0], s[1..], i, k);
      assert s == [s[0]] + s[1..];
    }
  }

  /** The exchange sort brings the first of the best to the front. */
  lemma SortFindsFirst(t: seq<Candidate>) returns (k: nat)
    requires t != []
    ensures FirstBest(t, k) && Exchanged(false, t, 0) != [] && Exchanged(false, t, 0)[0] == t[k]
  {
    MergeStability.SortIsSelection(t, 0);
    assert t[0..] == t && t[..0] == [] && t == [t[0]] + t[1..];
    k := SiftFindsFirst(t[0], t[1..]);
  }

  /** What leads after blending was behind the first candidate by less than two thirds. */
  lemma LeaderWasClose(s: seq<Candidate>, scores: map<string, real>) returns (k: nat)
    requires UnitScores(s) && SortedBy(false, s) && s != []
    ensures k < |s| && Merged(s, scores) != [] && Merged(s, scores)[0] == Blended(s[k], scores)
    ensures k > 0 ==> s[0].score - s[k].score < 2.0 / 3.0
  {
    if |scores| == 0 {
      k := 0;
    } else {
      k := SortFindsFirst(BlendedAll(s, scores));
      assert s[0] in s && s[k] in s;
      BlendedWithin(s[0], scores);
      BlendedWithin(s[k], scores);
    }
  }

  lemma BlendedWithin(c: Candidate, scores: map<string, real>)
    requires 0.0 <= c.score <= 1.0
    ensures 0.6 * c.score <= Blended(c, scores).score <= 0.6 * c.score + 0.4
  {
  }

  lemma FavouredLeads(s: seq<Candidate>, c: Candidate)
    requires UnitScores(s) && SortedBy(false, s) && c in s && CloseBehind(s, c)
    ensures var merged := Merged(s, Favouring(c.mode, MODES)); merged != [] && merged[0].mode == c.mode
  {
    var scores := Favouring(c.mode, MODES);
    var merged := Merged(s, scores);
    MergedHolds(s, scores, c);
    MergedIsSorted(s, scores);
    var before := MergedFrom(s, scores, merged[0]);
    EveryModeListed(c.mode);
    EveryModeListed(before.mode);
    FavouringScores(c.mode, MODES, c.mode);
    FavouringScores(c.mode, MODES, before.mode);
    var i :| 0 <= i < |merged| && merged[i] == Blended(c, scores);
  }

  /** An answer that names no mode and gives one full score. */
  function Favour(mode: Mode): Opinion {
    Opinion(false, "", Favouring(mode, MODES))
  }

  /** The classifier gave no usable answer. */
  const NO_ANSWER := Opinion(true, "", map[])

  /** An accepted candidate of this mode leads the list or is less than two thirds behind. */
  ghost predicate WithinReach(list: seq<Candidate>, mode: Mode) {
    exists k :: 0 <= k < |list| && list[k].mode == mode && !list[k].rejected &&
                (k == 0 || list[0].score - list[k].score < 2.0 / 3.0)
  }

  lemma CloseToFirst(list: seq<Candidate>, k: nat)
    requires k < |list| && SortedBy(false, list) && (k == 0 || list[0].score - list[k].score < 2.0 / 3.0)
    ensures CloseBehind(list, list[k])
  {
    forall d | d in list ensures d.score - list[k].score < 2.0 / 3.0 {
      var i :| 0 <= i < |list| && list[i] == d;
      assert i > 0 ==> !Better(false, list[i], list[0]);
    }
  }

  lemma FavouredIsTaken(selected: Mode, list: seq<Candidate>, c: Candidate)
    requires Listed(list) && c in list && !c.rejected && CloseBehind(list, c)
    ensures Arbitrated(selected, list, Favour(c.mode)).0 == c.mode
  {
    var scores := Favouring(c.mode, MODES);
    FavouredLeads(list, c);
    var before := MergedFrom(list, scores, Merged(list, scores)[0]);
    assert LeaderOr(Merged(list, scores), selected) == c.mode;
  }

  lemma OutcomeWithinReach(selected: Mode, list: seq<Candidate>, o: Opinion)
    requires Listed(list)
    ensures var m := Arbitrated(selected, list, o).0; m == selected || WithinReach(list, m)
  {
    if list != [] {
      var k := LeaderWasClose(list, o.scores);
      assert !list[k].rejected ==> WithinReach(list, list[k].mode);
    }
  }

  lemma AnswerFor(selected: Mode, list: seq<Candidate>, m: Mode) returns (o: Opinion)
    requires Listed(list) && (m == selected || WithinReach(list, m))
    ensures Arbitrated(selected, list, o).0 == m
  {
    if m == selected {
      o := NO_ANSWER;
    } else {
      var k :| 0 <= k < |list| && list[k].mode == m && !list[k].rejected &&
               (k == 0 || list[0].score - list[k].score < 2.0 / 3.0);
      CloseToFirst(list, k);
      FavouredIsTaken(selected, list, list[k]);
      o := Favour(m);
    }
  }

  /** The modes the classifier can bring about are exactly the selected one and those within reach. */
  lemma OutcomesIff(selected: Mode, list: seq<Candidate>, m: Mode)
    requires Listed(list)
    ensures (exists o :: Arbitrated(selected, list, o).0 == m) <==> m == selected || WithinReach(list, m)
  {
    if m == selected || WithinReach(list, m) {
      var o := AnswerFor(selected, list, m);
    } else {
      forall o ensures Arbitrated(selected, list, o).0 != m { OutcomeWithinReach(selected, list, o); }
    }
  }

  /** A keyword's pick and the mode put behind it are so close that either can be the outcome. */
  lemma KeywordReach(pick: Mode, p: Policy, m: Mode)
    ensures WithinReach(KeywordCandidates(pick, p), m) <==> m == pick || m == KeywordFallback(pick)
  {
    var list := KeywordCandidates(pick, p);
    assert list[0].mode == pick;
    if KeywordFallback(pick) != pick { assert list[1].mode == KeywordFallback(pick); }
  }

  lemma AdmittedWithinReach(s: Signals, p: Policy, legacy: Mode, m: Mode)
    requires WithinReach(Ranked(s, p, legacy), m)
    ensures Admitted(m, s, p)
  {
    RejectedIffNotAdmitted(s, p, legacy);
    var k :| 0 <= k < |Ranked(s, p, legacy)| && Ranked(s, p, legacy)[k].mode == m && !Ranked(s, p, legacy)[k].rejected;
    assert Honest(s, p, Ranked(s, p, legacy)[k]);
  }

  /** When every outcome is a mode the rules let pass: on a scored list exactly if they let any mode
      pass, behind a keyword exactly if they let both its pick and the mode put behind it pass. */
  lemma OutcomesAdmittedIff(keyword: Option<Mode>, s: Signals, p: Policy, legacy: Mode)
    ensures (forall o ::
               Admitted(Arbitrated(Picked(keyword, s, p, legacy), Shortlist(keyword, s, p, legacy), o).0, s, p))
            <==> match keyword
                 case Some(pick) => Admitted(pick, s, p) && Admitted(KeywordFallback(pick), s, p)
                 case None => exists mode :: Admitted(mode, s, p)
  {
    var selected, list := Picked(keyword, s, p, legacy), Shortlist(keyword, s, p, legacy);
    ShortlistIsListed(keyword, s, p, legacy);
    assert Arbitrated(selected, list, NO_ANSWER).0 == selected;
    match keyword
    case Some(pick) =>
      KeywordReach(pick, p, KeywordFallback(pick));
      OutcomesIff(pick, list, KeywordFallback(pick));
      forall o ensures Arbitrated(pick, list, o).0 in {pick, KeywordFallback(pick)} {
        OutcomeWithinReach(pick, list, o);
        KeywordReach(pick, p, Arbitrated(pick, list, o).0);
      }
    case None =>
      SelectionIsAdmitted(s, p, legacy);
      forall o | exists mode :: Admitted(mode, s, p) ensures Admitted(Arbitrated(selected, list, o).0, s, p) {
        OutcomeIsAdmitted(s, p, legacy, o);
      }
  }

  // ---------- the sandbox rule ----------

  /** Every accepted candidate but the sandbox is two thirds or more behind the first one. */
  ghost predicate OthersFarBehind(list: seq<Candidate>) {
    forall k :: 0 <= k < |list| && !list[k].rejected && list[k].mode != SandboxExecution ==>
      k > 0 && list[0].score - list[k].score >= 2.0 / 3.0
  }

  ghost predicate SandboxStays(list: seq<Candidate>) {
    forall o :: Arbitrated(SandboxExecution, list, o).0 == SandboxExecution
  }

  lemma StaysIff(list: seq<Candidate>)
    requires Listed(list)
    ensures SandboxStays(list) <==> OthersFarBehind(list)
  {
    if OthersFarBehind(list) {
      forall o ensures Arbitrated(SandboxExecution, list, o).0 == SandboxExecution {
        OutcomeWithinReach(SandboxExecution, list, o);
      }
    } else {
      var k :| 0 <= k < |list| && !list[k].rejected && list[k].mode != SandboxExecution &&
               (k == 0 || list[0].score - list[k].score < 2.0 / 3.0);
      assert WithinReach(list, list[k].mode);
      var o := AnswerFor(SandboxExecution, list, list[k].mode);
    }
  }

  lemma ToolsAreClose(p: Policy)
    ensures !OthersFarBehind(KeywordCandidates(SandboxExecution, p))
  {
    assert KeywordCandidates(SandboxExecution, p)[1] == Unjudged(ReactTool, 0.40, p);
  }

  /** The rule that keeps a selected sandbox looks at the mode the classifier names, not at its
      scores. A sandbox stays selected under every answer exactly if every other accepted candidate
      is two thirds or more behind the first of the list; behind a keyword it never does. */
  lemma SandboxStaysIff(keyword: Option<Mode>, s: Signals, p: Policy, legacy: Mode)
    ensures SandboxStays(Shortlist(keyword, s, p, legacy)) <==> OthersFarBehind(Shortlist(keyword, s, p, legacy))
    ensures keyword == Some(SandboxExecution) ==> !SandboxStays(Shortlist(keyword, s, p, legacy))
  {
    ShortlistIsListed(keyword, s, p, legacy);
    StaysIff(Shortlist(keyword, s, p, legacy));
    ToolsAreClose(p);
  }

  lemma DirectIsClose(ranked: seq<Candidate>) returns (c: Candidate)
    requires multiset(Modes(ranked)) == multiset(MODES)
    requires forall d :: d in ranked ==> d == PlainCandidate(d.mode, SandboxExecution)
    ensures c in ranked && !c.rejected && c.mode == DirectAnswer && CloseBehind(ranked, c)
  {
    assert MODES[0] == DirectAnswer;
    c := CandidateOf(ranked, MODES, DirectAnswer);
  }

  lemma PlainGivenUp(s: Signals, p: Policy, ranked: seq<Candidate>)
    requires IsPlain(s, p, SandboxExecution) && ranked == Ranked(s, p, DirectAnswer)
    ensures Arbitrated(SandboxExecution, ranked, Favour(DirectAnswer)).0 == DirectAnswer
  {
    PlainAreRanked(s, p, SandboxExecution, ranked);
    RankedCorrect(s, p, DirectAnswer);
    ShortlistIsListed(None, s, p, DirectAnswer);
    var direct := DirectIsClose(ranked);
    FavouredIsTaken(SandboxExecution, ranked, direct);
  }

  /** A request whose sandbox the classifier gives up without naming any mode. */
  lemma SandboxGivenUp() returns (s: Signals, p: Policy, o: Opinion)
    ensures IsPlain(s, p, SandboxExecution) && s.allowSandbox && o.named == ""
    ensures SelectedMode(s, p, DirectAnswer) == SandboxExecution
    ensures Arbitrated(SandboxExecution, Ranked(s, p, DirectAnswer), o).0 == DirectAnswer
  {
    s, p, o := PlainSignals(true), PlainPolicy(SandboxExecution), Favour(DirectAnswer);
    PlainRequest(SandboxExecution, true);
    PlainIsSelected(s, p, SandboxExecution);
    PlainGivenUp(s, p, Ranked(s, p, DirectAnswer));
  }
}
