/** What a client of the event stream gets frame by frame, and how its stream ends, over whole runs. */
module StreamEnds {
  import opened EventStream
  import opened Numbers

  // ---------- frame by frame ----------

  /** `frames` is one frame for each of the first `n` entries. */
  ghost predicate Shows(frames: seq<Frame>, entries: seq<Event>, n: nat) {
    |frames| == n <= |entries| && forall i :: 0 <= i < n ==> frames[i] == Sent(entries[i])
  }

  /** The three event types that end a stream. */
  ghost predicate EndsStream(e: Event) {
    e.eventType in {"TASK_COMPLETED", "TASK_FAILED", "TASK_BUDGET_EXCEEDED"}
  }

  ghost predicate AnyEnds(entries: seq<Event>) {
    exists i :: 0 <= i < |entries| && EndsStream(entries[i])
  }

  lemma TerminalEnds(entries: seq<Event>)
    ensures HasTerminal(entries) <==> AnyEnds(entries)
    ensures forall e :: IsTerminal(e) <==> EndsStream(e)
  {
    if AnyEnds(entries) {
      var i :| 0 <= i < |entries| && EndsStream(entries[i]);
      assert entries[i] in entries && IsTerminal(entries[i]);
    }
    if e :| e in entries && IsTerminal(e) {
      var i :| 0 <= i < |entries| && entries[i] == e;
      assert EndsStream(entries[i]);
    }
  }

  /** The replay shows every entry that is there, past a terminal one too, and ends if one of them is. */
  lemma ReplayShows(w: World, fails: bool)
    requires w.trimmed <= |w.log|
    ensures var r, live := Replay(w, fails), w.log[w.trimmed..];
            if fails then r.frames == [] && r.status == ReplayFailed
            else Shows(r.frames, live, |live|) && r.status == if AnyEnds(live) then EndedTerminal else Following
  {
    TerminalEnds(w.log[w.trimmed..]);
  }

  /** The entries a read finds that comes after the round's appends and trimming. */
  function Ahead(w: World, r: Reader, round: Round): seq<Event>
    requires r.cursor <= |w.log| && w.trimmed <= |w.log|
  {
    var after := Evolve(w, round);
    after.log[Max(r.cursor, after.trimmed)..]
  }

  /** `frames` is for `entries` up to and including the first that ends the stream, or all of them. */
  ghost predicate ShowsUpToEnd(frames: seq<Frame>, entries: seq<Event>) {
    var n := |frames|;
    && Shows(frames, entries, n) && (forall i :: 0 <= i < n - 1 ==> !EndsStream(entries[i]))
    && (n == |entries| || (0 < n && EndsStream(entries[n - 1])))
  }

  /** What a reader that still follows adds in one round, and where that leaves it. */
  ghost predicate Adds(entries: seq<Event>, outcome: Outcome, more: seq<Frame>, status: Status) {
    match outcome
    case Cancelled => more == [] && status == EndedCancelled
    case ReadFails => more == [ErrorFrame] && status == EndedError
    case Answered =>
      if entries == [] then more == [Ping] && status == Following
      else ShowsUpToEnd(more, entries) && status == if AnyEnds(entries) then EndedTerminal else Following
  }

  /** A reader that has stopped stays as it is, one that still follows adds its frames. */
  ghost predicate Continues(before: Reader, after: Reader, entries: seq<Event>, outcome: Outcome) {
    if before.status != Following then after == before
    else before.frames <= after.frames && Adds(entries, outcome, after.frames[|before.frames|..], after.status)
  }

  lemma {:induction false} SendShows(entries: seq<Event>, n: nat)
    requires n == ThroughTerminal(entries) && entries != []
    ensures ShowsUpToEnd(SendAll(entries[..n]), entries)
  {
    TerminalEnds(entries);
    ThroughTerminalExact(entries);
  }

  lemma AnsweredAdds(w: World, r: Reader, entries: seq<Event>)
    requires r.cursor <= |w.log| && w.trimmed <= |w.log| && r.status == Following
    requires entries == w.log[Max(r.cursor, w.trimmed)..]
    ensures Continues(r, Follow(w, r, Answered), entries, Answered)
  {
    TerminalEnds(entries);
    if entries != [] { SendShows(entries, ThroughTerminal(entries)); }
  }

  lemma FollowAdds(w: World, r: Reader, round: Round)
    requires r.cursor <= |w.log| && w.trimmed <= |w.log|
    ensures Continues(r, Follow(Evolve(w, round), r, round.outcome), Ahead(w, r, round), round.outcome)
  {
    if r.status == Following && round.outcome == Answered {
      AnsweredAdds(Evolve(w, round), r, Ahead(w, r, round));
    }
  }

  lemma {:induction false} RoundSplits(w: World, r: Reader, rounds: seq<Round>, i: nat)
    requires w.trimmed <= |w.log| && r.cursor <= |w.log| && i < |rounds|
    ensures var before, after := Played(w, r, rounds[..i]), Played(w, r, rounds[..i + 1]);
            after.0 == Evolve(before.0, rounds[i]) && after.1 == Follow(after.0, before.1, rounds[i].outcome)
  {
    assert rounds[..i + 1][..i] == rounds[..i];
  }

  /** Round by round: a reader that has stopped adds nothing more; one that still follows shows what it
      finds ahead up to the first entry that ends the stream, a ping if there is nothing, an error
      frame if the read fails, and nothing if it is cancelled. */
  lemma {:induction false} RoundShows(w: World, r: Reader, rounds: seq<Round>, i: nat)
    requires w.trimmed <= |w.log| && r.cursor <= |w.log| && i < |rounds|
    ensures var before, after := Played(w, r, rounds[..i]), Played(w, r, rounds[..i + 1]).1;
            Continues(before.1, after, Ahead(before.0, before.1, rounds[i]), rounds[i].outcome)
  {
    RoundSplits(w, r, rounds, i);
    var before := Played(w, r, rounds[..i]);
    FollowAdds(before.0, before.1, rounds[i]);
  }

  // ---------- how it ends ----------

  /** The reader still follows when round `i` comes, which stops it with this outcome. */
  ghost predicate StopsAt(w: World, r: Reader, rounds: seq<Round>, i: nat, outcome: Outcome)
    requires w.trimmed <= |w.log| && r.cursor <= |w.log|
  {
    i < |rounds| && rounds[i].outcome == outcome && Played(w, r, rounds[..i]).1.status == Following
  }

  ghost predicate AllAnswered(rounds: seq<Round>) {
    forall i :: 0 <= i < |rounds| ==> rounds[i].outcome == Answered
  }

  /** Some round stopped the reader with this outcome. */
  ghost predicate Stopped(w: World, r: Reader, rounds: seq<Round>, outcome: Outcome)
    requires w.trimmed <= |w.log| && r.cursor <= |w.log|
  {
    exists i: nat :: StopsAt(w, r, rounds, i, outcome)
  }

  /** A reader whose stream a failing read has ended, or a cancellation, or neither. */
  ghost predicate EndsBy(p: Reader, readFailed: bool, cancelled: bool, neither: bool, never: bool) {
    && (p.status == EndedError <==> readFailed) && (p.status == EndedCancelled <==> cancelled)
    && (ErrorFrame in p.frames <==> p.status == EndedError)
    && (p.status == Following ==> neither)
    && (p.status == ReplayFailed <==> never)
  }

  ghost predicate EndsByRounds(w: World, r: Reader, rounds: seq<Round>)
    requires w.trimmed <= |w.log| && r.cursor <= |w.log|
  {
    EndsBy(Played(w, r, rounds).1, Stopped(w, r, rounds, ReadFails), Stopped(w, r, rounds, Cancelled),
           r.status == Following && AllAnswered(rounds), r.status == ReplayFailed)
  }

  lemma StopsAtInit(w: World, r: Reader, rounds: seq<Round>, i: nat, outcome: Outcome)
    requires w.trimmed <= |w.log| && r.cursor <= |w.log| && rounds != [] && i < |rounds| - 1
    ensures StopsAt(w, r, rounds, i, outcome) <==> StopsAt(w, r, rounds[..|rounds| - 1], i, outcome)
  {
    assert rounds[..|rounds| - 1][..i] == rounds[..i];
  }

  lemma {:induction false} LastStops(w: World, r: Reader, rounds: seq<Round>, outcome: Outcome)
    requires w.trimmed <= |w.log| && r.cursor <= |w.log| && rounds != []
    ensures var n := |rounds| - 1;
            Stopped(w, r, rounds, outcome) <==>
              Stopped(w, r, rounds[..n], outcome) ||
              (rounds[n].outcome == outcome && Played(w, r, rounds[..n]).1.status == Following)
  {
    var n := |rounds| - 1;
    if i: nat :| StopsAt(w, r, rounds, i, outcome) {
      if i < n { StopsAtInit(w, r, rounds, i, outcome); }
    }
    if i: nat :| StopsAt(w, r, rounds[..n], i, outcome) {
      StopsAtInit(w, r, rounds, i, outcome);
      assert StopsAt(w, r, rounds, i, outcome);
    }
    if rounds[n].outcome == outcome && Played(w, r, rounds[..n]).1.status == Following {
      assert StopsAt(w, r, rounds, n, outcome);
    }
  }

  /** What one round makes of status and errors. */
  ghost predicate OneRound(before: Reader, after: Reader, outcome: Outcome) {
    var stops := before.status == Following;
    && (after.status == EndedError <==> before.status == EndedError || (stops && outcome == ReadFails))
    && (after.status == EndedCancelled <==> before.status == EndedCancelled || (stops && outcome == Cancelled))
    && (ErrorFrame in after.frames <==> ErrorFrame in before.frames || (stops && outcome == ReadFails))
    && (after.status == Following ==> stops && outcome == Answered)
    && (after.status == ReplayFailed <==> before.status == ReplayFailed)
  }

  lemma RoundIsOne(before: Reader, after: Reader, entries: seq<Event>, outcome: Outcome)
    requires Continues(before, after, entries, outcome)
    ensures OneRound(before, after, outcome)
  {
    if before.status == Following { assert after.frames == before.frames + after.frames[|before.frames|..]; }
  }

  lemma FollowIsOne(w: World, r: Reader, round: Round)
    requires r.cursor <= |w.log| && w.trimmed <= |w.log|
    ensures OneRound(r, Follow(Evolve(w, round), r, round.outcome), round.outcome)
  {
    FollowAdds(w, r, round);
    RoundIsOne(r, Follow(Evolve(w, round), r, round.outcome), Ahead(w, r, round), round.outcome);
  }

  lemma {:induction false} LastRound(w: World, r: Reader, rounds: seq<Round>)
    requires w.trimmed <= |w.log| && r.cursor <= |w.log| && rounds != []
    ensures var n := |rounds| - 1;
            OneRound(Played(w, r, rounds[..n]).1, Played(w, r, rounds).1, rounds[n].outcome)
  {
    var n := |rounds| - 1;
    var before := Played(w, r, rounds[..n]);
    FollowIsOne(before.0, before.1, rounds[n]);
  }

  lemma EndsByOneMore(before: Reader, after: Reader, outcome: Outcome, readFailed: bool, cancelled: bool, neither: bool,
                      never: bool)
    requires OneRound(before, after, outcome) && EndsBy(before, readFailed, cancelled, neither, never)
    ensures var stops := before.status == Following;
            EndsBy(after, readFailed || (stops && outcome == ReadFails), cancelled || (stops && outcome == Cancelled),
                   neither && outcome == Answered, never)
  {
  }

  lemma AnsweredInit(rounds: seq<Round>)
    requires rounds != []
    ensures AllAnswered(rounds) <==> AllAnswered(rounds[..|rounds| - 1]) && rounds[|rounds| - 1].outcome == Answered
  {
    var init := rounds[..|rounds| - 1];
    assert forall i :: 0 <= i < |init| ==> init[i] == rounds[i];
  }

  lemma OneRoundMore(w: World, r: Reader, rounds: seq<Round>)
    requires w.trimmed <= |w.log| && r.cursor <= |w.log| && rounds != []
    requires EndsByRounds(w, r, rounds[..|rounds| - 1])
    ensures EndsByRounds(w, r, rounds)
  {
    var init, last := rounds[..|rounds| - 1], rounds[|rounds| - 1];
    LastRound(w, r, rounds);
    LastStops(w, r, rounds, ReadFails);
    LastStops(w, r, rounds, Cancelled);
    AnsweredInit(rounds);
    EndsByOneMore(Played(w, r, init).1, Played(w, r, rounds).1, last.outcome, Stopped(w, r, init, ReadFails),
                  Stopped(w, r, init, Cancelled), r.status == Following && AllAnswered(init), r.status == ReplayFailed);
  }

  lemma {:induction false} RunEndsByRounds(w: World, r: Reader, rounds: seq<Round>)
    requires w.trimmed <= |w.log| && r.cursor <= |w.log|
    requires ErrorFrame !in r.frames && r.status !in {EndedError, EndedCancelled}
    ensures EndsByRounds(w, r, rounds)
  {
    if rounds != [] {
      RunEndsByRounds(w, r, rounds[..|rounds| - 1]);
      OneRoundMore(w, r, rounds);
    }
  }

  /** Over every run: the stream ends in an error, and then alone shows one, exactly if a read fails
      while it is followed, and cancelled exactly if that happens while it is followed; it never
      begins exactly if the replay fails; and it is still followed exactly if the replay and every
      read went well and no entry shown ends it. */
  lemma {:induction false} StreamEndsIff(w: World, fails: bool, rounds: seq<Round>)
    requires w.trimmed <= |w.log|
    ensures EndsByRounds(w, Replay(w, fails), rounds)
    ensures var p := Played(w, Replay(w, fails), rounds).1;
            && (p.status == ReplayFailed <==> fails)
            && (p.status == EndedTerminal <==> AnyEnds(SentEvents(p.frames)))
            && (p.status == Following <==> !fails && AllAnswered(rounds) && !AnyEnds(SentEvents(p.frames)))
  {
    var first := Replay(w, fails);
    ReplayShows(w, fails);
    RunEndsByRounds(w, first, rounds);
    ReplayWellRead(w, fails);
    PlayedWellRead(w, first, rounds);
    TerminalEnds(SentEvents(Played(w, first, rounds).1.frames));
  }
}
