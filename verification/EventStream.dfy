/** Streaming a task's events to a client: replay what the stream holds, then follow it by
    cursor, while other processes append to the stream and trim its old end.
 */
module EventStream {
  import opened Numbers

  /** Stream ids are positive and grow with every append. */
  datatype Event = Event(id: nat, eventType: string, payload: string)

  const TASK_COMPLETED := "TASK_COMPLETED"
  const TASK_FAILED := "TASK_FAILED"
  const TASK_BUDGET_EXCEEDED := "TASK_BUDGET_EXCEEDED"

  predicate IsTerminal(e: Event) {
    e.eventType == TASK_COMPLETED || e.eventType == TASK_FAILED || e.eventType == TASK_BUDGET_EXCEEDED
  }

  /** Everything ever appended, of which the first `trimmed` entries are gone. */
  datatype World = World(log: seq<Event>, trimmed: nat)

  ghost predicate Increasing(log: seq<Event>) {
    && (forall i :: 0 <= i < |log| ==> 0 < log[i].id)
    && (forall i, j :: 0 <= i < j < |log| ==> log[i].id < log[j].id)
  }

  datatype Outcome = Answered | ReadFails | Cancelled

  /** What happens between two reads, and how the next read ends. */
  datatype Round = Round(appended: seq<Event>, trimTo: nat, outcome: Outcome)

  function Evolve(w: World, round: Round): (r: World)
    ensures r.log == w.log + round.appended && w.trimmed <= r.trimmed
    ensures w.trimmed <= |w.log| ==> r.trimmed <= |r.log|
  {
    var log := w.log + round.appended;
    World(log, Max(w.trimmed, Min(round.trimTo, |log|)))
  }

  datatype Frame = Sent(event: Event) | Ping | ErrorFrame

  datatype Status = Following | EndedTerminal | EndedError | EndedCancelled | ReplayFailed

  /** The reader's position in the log, the log positions it sent, the ones it passed over, and
      what it wrote. */
  datatype Reader = Reader(cursor: nat, sent: seq<nat>, missed: set<nat>, frames: seq<Frame>, status: Status)

  // ---------- reading by id ----------

  /** The live entries with an id above `lastId`. */
  function LiveAfter(w: World, lastId: nat): seq<Event>
    requires w.trimmed <= |w.log|
  {
    After(w.log[w.trimmed..], lastId)
  }

  function After(entries: seq<Event>, lastId: nat): seq<Event> {
    if entries == [] then []
    else
      var last := entries[|entries| - 1];
      After(entries[..|entries| - 1], lastId) + if last.id > lastId then [last] else []
  }

  /** The id the reader remembers stands for its position in the log. */
  function LastId(log: seq<Event>, cursor: nat): nat
    requires cursor <= |log|
  {
    if cursor == 0 then 0 else log[cursor - 1].id
  }

  lemma {:induction false} AfterAllSmall(entries: seq<Event>, lastId: nat)
    requires forall e :: e in entries ==> e.id <= lastId
    ensures After(entries, lastId) == []
  {
    if entries != [] {
      assert entries[|entries| - 1] in entries;
      assert forall e :: e in entries[..|entries| - 1] ==> e in entries;
      AfterAllSmall(entries[..|entries| - 1], lastId);
    }
  }

  lemma {:induction false} AfterSplit(entries: seq<Event>, lastId: nat, k: nat)
    requires k <= |entries|
    requires forall i :: 0 <= i < k ==> entries[i].id <= lastId
    requires forall i :: k <= i < |entries| ==> entries[i].id > lastId
    ensures After(entries, lastId) == entries[k..]
    decreases |entries|
  {
    if |entries| == k {
      AfterAllSmall(entries, lastId);
    } else {
      AfterSplit(entries[..|entries| - 1], lastId, k);
      assert entries[k..] == entries[..|entries| - 1][k..] + [entries[|entries| - 1]];
    }
  }

  /** Reading by the remembered id is reading from the position it stands for. */
  lemma ReadByIdIsByPosition(w: World, cursor: nat)
    requires Increasing(w.log) && w.trimmed <= |w.log| && cursor <= |w.log|
    ensures LiveAfter(w, LastId(w.log, cursor)) == w.log[Max(cursor, w.trimmed)..]
  {
    var k := if cursor <= w.trimmed then 0 else cursor - w.trimmed;
    LiveIds(w, cursor, k);
    AfterSplit(w.log[w.trimmed..], LastId(w.log, cursor), k);
    DropDrop(w.log, w.trimmed, k);
  }

  lemma DropDrop<T>(s: seq<T>, i: nat, k: nat)
    requires i + k <= |s|
    ensures s[i..][k..] == s[i + k..]
  {
  }

  lemma LiveIds(w: World, cursor: nat, k: nat)
    requires Increasing(w.log) && w.trimmed <= |w.log| && cursor <= |w.log|
    requires k == if cursor <= w.trimmed then 0 else cursor - w.trimmed
    ensures var live, lastId := w.log[w.trimmed..], LastId(w.log, cursor);
            && (forall i :: 0 <= i < k ==> live[i].id <= lastId)
            && (forall i :: k <= i < |live| ==> live[i].id > lastId)
  {
    var live, lastId := w.log[w.trimmed..], LastId(w.log, cursor);
    forall i | 0 <= i < k ensures live[i].id <= lastId {
      IdsBeyond(w.log, cursor, w.trimmed + i);
    }
    forall i | k <= i < |live| ensures live[i].id > lastId {
      IdsBeyond(w.log, cursor, w.trimmed + i);
    }
  }

  /** An entry's id is above the remembered one exactly if its position is not below the cursor. */
  lemma IdsBeyond(log: seq<Event>, cursor: nat, i: nat)
    requires Increasing(log) && cursor <= |log| && i < |log|
    ensures LastId(log, cursor) < log[i].id <==> cursor <= i
  {
  }

  // ---------- the reader as a function of the run ----------

  function SendAll(events: seq<Event>): seq<Frame> {
    seq(|events|, i requires 0 <= i < |events| => Sent(events[i]))
  }

  function Positions(from: nat, n: nat): (s: seq<nat>)
    ensures |s| == n && forall i :: 0 <= i < n ==> s[i] == from + i
    ensures forall k: nat :: k in s <==> (from <= k && k < from + n)
  {
    if n == 0 then [] else Positions(from, n - 1) + [from + n - 1]
  }

  function Between(from: nat, to: nat): (s: set<nat>)
    ensures forall k :: k in s <==> (from <= k && k < to)
    decreases if from < to then to - from else 0
  {
    if from >= to then {} else {from} + Between(from + 1, to)
  }

  predicate HasTerminal(events: seq<Event>) {
    exists e :: e in events && IsTerminal(e)
  }

  /** How many events are sent until the first terminal one is out. */
  function ThroughTerminal(events: seq<Event>): (n: nat)
    ensures n <= |events| && (events != [] ==> 0 < n)
  {
    if events == [] then 0
    else if IsTerminal(events[0]) then 1
    else 1 + ThroughTerminal(events[1..])
  }

  lemma {:induction false} ThroughTerminalExact(events: seq<Event>)
    ensures HasTerminal(events[..ThroughTerminal(events)]) <==> HasTerminal(events)
    ensures !HasTerminal(events) ==> ThroughTerminal(events) == |events|
    ensures HasTerminal(events) ==>
              IsTerminal(events[ThroughTerminal(events) - 1]) && !HasTerminal(events[..ThroughTerminal(events) - 1])
  {
    if events != [] {
      assert events == [events[0]] + events[1..];
      if IsTerminal(events[0]) {
        assert events[..1][0] == events[0];
      } else {
        var n := ThroughTerminal(events[1..]);
        ThroughTerminalExact(events[1..]);
        assert events[..n + 1] == [events[0]] + events[1..][..n];
        if HasTerminal(events[1..]) {
          assert n >= 1 && events[..n] == [events[0]] + events[1..][..n - 1];
        }
      }
    }
  }

  /** The replay sends everything live, terminal events and what follows them included. */
  function Replay(w: World, fails: bool): Reader
    requires w.trimmed <= |w.log|
  {
    if fails then Reader(0, [], {}, [], ReplayFailed)
    else
      var live := w.log[w.trimmed..];
      Reader(if live == [] then 0 else |w.log|, Positions(w.trimmed, |live|),
             if live == [] then {} else Between(0, w.trimmed),
             SendAll(live), if HasTerminal(live) then EndedTerminal else Following)
  }

  /** One read of the following phase. */
  function Follow(w: World, r: Reader, outcome: Outcome): Reader
    requires r.cursor <= |w.log| && w.trimmed <= |w.log|
  {
    if r.status != Following then r
    else match outcome
      case Cancelled => r.(status := EndedCancelled)
      case ReadFails => r.(frames := r.frames + [ErrorFrame], status := EndedError)
      case Answered =>
        var start := Max(r.cursor, w.trimmed);
        var batch := w.log[start..];
        if batch == [] then r.(frames := r.frames + [Ping])
        else
          var n := ThroughTerminal(batch);
          Reader(start + n, r.sent + Positions(start, n), r.missed + Between(r.cursor, start),
                 r.frames + SendAll(batch[..n]), if HasTerminal(batch) then EndedTerminal else Following)
  }

  /** World and reader after some rounds. */
  function Played(w: World, r: Reader, rounds: seq<Round>): (p: (World, Reader))
    requires w.trimmed <= |w.log| && r.cursor <= |w.log|
    ensures p.0.trimmed <= |p.0.log| && p.1.cursor <= |p.0.log| && w.log <= p.0.log && w.trimmed <= p.0.trimmed
  {
    if rounds == [] then (w, r)
    else
      var before := Played(w, r, rounds[..|rounds| - 1]);
      var w' := Evolve(before.0, rounds[|rounds| - 1]);
      (w', Follow(w', before.1, rounds[|rounds| - 1].outcome))
  }

  // ---------- the handler ----------

  method ReadAfter(log: seq<Event>, trimmed: nat, lastId: nat) returns (events: seq<Event>)
    requires trimmed <= |log|
    ensures events == LiveAfter(World(log, trimmed), lastId)
  {
    events := [];
    ghost var live := log[trimmed..];
    for i := trimmed to |log|
      invariant events == After(live[..i - trimmed], lastId)
    {
      assert live[..i + 1 - trimmed][..i - trimmed] == live[..i - trimmed];
      if log[i].id > lastId {
        events := events + [log[i]];
      }
    }
    assert live[..|live|] == live;
  }

  /** Writes a batch event by event and stops behind the first terminal one. */
  method SendUntilTerminal(frames: seq<Frame>, events: seq<Event>, lastId0: nat)
    returns (r: seq<Frame>, lastId: nat, terminal: bool)
    ensures r == frames + SendAll(events[..ThroughTerminal(events)]) && terminal == HasTerminal(events)
    ensures lastId == if events == [] then lastId0 else events[ThroughTerminal(events) - 1].id
  {
    r, lastId := frames, lastId0;
    ThroughTerminalExact(events);
    for i := 0 to |events|
      invariant r == frames + SendAll(events[..i]) && !HasTerminal(events[..i])
      invariant i <= ThroughTerminal(events)
      invariant lastId == if i == 0 then lastId0 else events[i - 1].id
    {
      lastId := events[i].id;
      r := r + [Sent(events[i])];
      assert events[..i + 1] == events[..i] + [events[i]];
      if IsTerminal(events[i]) {
        StopsAt(events, i);
        return r, lastId, true;
      }
      NotYet(events, i);
    }
    assert events[..|events|] == events;
    terminal := false;
  }

  lemma {:induction false} StopsAt(events: seq<Event>, i: nat)
    requires i < |events| && IsTerminal(events[i]) && !HasTerminal(events[..i])
    ensures ThroughTerminal(events) == i + 1 && HasTerminal(events)
  {
    assert events[i] in events;
    if i > 0 {
      assert events[..i][0] == events[0];
      assert forall e :: e in events[1..][..i - 1] ==> e in events[..i];
      StopsAt(events[1..], i - 1);
    }
  }

  lemma {:induction false} NotYet(events: seq<Event>, i: nat)
    requires i < |events| && !IsTerminal(events[i]) && !HasTerminal(events[..i])
    ensures i + 1 <= ThroughTerminal(events)
  {
    if i > 0 {
      assert events[..i][0] == events[0];
      assert forall e :: e in events[1..][..i - 1] ==> e in events[..i];
      NotYet(events[1..], i - 1);
    }
  }

  /** The replay loop: unlike the following phase it goes on behind a terminal event. */
  method SendReplay(log: seq<Event>, trimmed: nat) returns (frames: seq<Frame>, lastId: nat, terminal: bool)
    requires trimmed <= |log|
    ensures var r := Replay(World(log, trimmed), false);
            frames == r.frames && lastId == LastId(log, r.cursor) && (terminal <==> r.status == EndedTerminal)
  {
    frames, lastId, terminal := [], 0, false;
    for i := trimmed to |log|
      invariant frames == SendAll(log[trimmed..i])
      invariant lastId == if i == trimmed then 0 else log[i - 1].id
      invariant terminal == HasTerminal(log[trimmed..i])
    {
      lastId := log[i].id;
      frames := frames + [Sent(log[i])];
      assert log[trimmed..i + 1] == log[trimmed..i] + [log[i]];
      if IsTerminal(log[i]) {
        terminal := true;
      }
    }
    assert log[trimmed..|log|] == log[trimmed..];
  }

  /** One pass of the endless loop. */
  method FollowOnce(log: seq<Event>, trimmed: nat, ghost r: Reader, outcome: Outcome, frames0: seq<Frame>, lastId0: nat)
    returns (frames: seq<Frame>, lastId: nat, status: Status)
    requires Increasing(log) && trimmed <= |log| && r.cursor <= |log|
    requires r.status == Following && frames0 == r.frames && lastId0 == LastId(log, r.cursor)
    ensures var r' := Follow(World(log, trimmed), r, outcome);
            frames == r'.frames && status == r'.status && lastId == LastId(log, r'.cursor)
  {
    frames, lastId := frames0, lastId0;
    match outcome {
      case Cancelled => return frames, lastId, EndedCancelled;
      case ReadFails => return frames + [ErrorFrame], lastId, EndedError;
      case Answered =>
    }
    ReadByIdIsByPosition(World(log, trimmed), r.cursor);
    var events := ReadAfter(log, trimmed, lastId);
    FollowBatch(World(log, trimmed), r, events);
    if |events| == 0 {
      return frames + [Ping], lastId, Following;
    }
    var terminal;
    frames, lastId, terminal := SendUntilTerminal(frames, events, lastId);
    status := if terminal then EndedTerminal else Following;
  }

  /** What an answered read does, in terms of the batch it returns. */
  lemma {:induction false} FollowBatch(w: World, r: Reader, batch: seq<Event>)
    requires w.trimmed <= |w.log| && r.cursor <= |w.log| && r.status == Following
    requires batch == w.log[Max(r.cursor, w.trimmed)..]
    ensures var r', n := Follow(w, r, Answered), ThroughTerminal(batch);
            && (batch == [] ==> r' == r.(frames := r.frames + [Ping]))
            && (batch != [] ==>
                  && r'.frames == r.frames + SendAll(batch[..n])
                  && r'.status == (if HasTerminal(batch) then EndedTerminal else Following)
                  && r'.cursor <= |w.log| && LastId(w.log, r'.cursor) == batch[n - 1].id)
  {
    if batch != [] {
      var start, n := Max(r.cursor, w.trimmed), ThroughTerminal(batch);
      assert batch[n - 1] == w.log[start + n - 1];
    }
  }

  /** Whatever is appended during the run, ids stay positive and increasing. */
  ghost predicate AppendsIncrease(w: World, r: Reader, rounds: seq<Round>)
    requires w.trimmed <= |w.log| && r.cursor <= |w.log|
  {
    forall i :: 0 <= i <= |rounds| ==> Increasing(Played(w, r, rounds[..i]).0.log)
  }

  lemma {:induction false} PlayedNext(w: World, r: Reader, rounds: seq<Round>, i: nat)
    requires w.trimmed <= |w.log| && r.cursor <= |w.log| && i < |rounds|
    ensures var before, after := Played(w, r, rounds[..i]), Played(w, r, rounds[..i + 1]);
            after.0 == Evolve(before.0, rounds[i]) && after.1 == Follow(after.0, before.1, rounds[i].outcome)
  {
    assert rounds[..i + 1][..i] == rounds[..i];
  }

  /** What others did to the stream, then one pass of the loop. */
  method FollowRound(log0: seq<Event>, trimmed0: nat, round: Round, ghost r: Reader, frames0: seq<Frame>, lastId0: nat)
    returns (log: seq<Event>, trimmed: nat, frames: seq<Frame>, lastId: nat, status: Status)
    requires trimmed0 <= |log0| && r.cursor <= |log0| && Increasing(Evolve(World(log0, trimmed0), round).log)
    requires r.status == Following && frames0 == r.frames && lastId0 == LastId(log0, r.cursor)
    ensures World(log, trimmed) == Evolve(World(log0, trimmed0), round) && trimmed <= |log| && r.cursor <= |log|
    ensures var r' := Follow(World(log, trimmed), r, round.outcome);
            frames == r'.frames && status == r'.status && lastId == LastId(log, r'.cursor)
  {
    log := log0 + round.appended;
    trimmed := Max(trimmed0, Min(round.trimTo, |log|));
    frames, lastId, status := FollowOnce(log, trimmed, r, round.outcome, frames0, lastId0);
  }

  /** The endless loop, for as many rounds as the environment grants. */
  method FollowRounds(w: World, ghost r: Reader, rounds: seq<Round>, frames0: seq<Frame>, lastId0: nat)
    returns (frames: seq<Frame>, status: Status)
    requires w.trimmed <= |w.log| && r.cursor <= |w.log| && AppendsIncrease(w, r, rounds)
    requires r.status == Following && frames0 == r.frames && lastId0 == LastId(w.log, r.cursor)
    ensures var end := Played(w, r, rounds).1; frames == end.frames && status == end.status
  {
    var log, trimmed, lastId := w.log, w.trimmed, lastId0;
    frames, status := frames0, Following;
    ghost var now := r;
    for i := 0 to |rounds|
      invariant 0 <= trimmed <= |log| && now.cursor <= |log|
      invariant (World(log, trimmed), now) == Played(w, r, rounds[..i])
      invariant status == Following == now.status && frames == now.frames && lastId == LastId(log, now.cursor)
    {
      PlayedNext(w, r, rounds, i);
      assert Increasing(Evolve(World(log, trimmed), rounds[i]).log);
      ghost var next := Follow(Evolve(World(log, trimmed), rounds[i]), now, rounds[i].outcome);
      log, trimmed, frames, lastId, status := FollowRound(log, trimmed, rounds[i], now, frames, lastId);
      now := next;
      if status != Following {
        StoppedStays(w, r, rounds, i + 1);
        return;
      }
    }
    assert rounds[..|rounds|] == rounds;
  }

  /** The handler, observed for as many rounds of its endless loop as the environment grants. */
  method StreamTaskEvents(w: World, replayFails: bool, rounds: seq<Round>) returns (frames: seq<Frame>, status: Status)
    requires w.trimmed <= |w.log| && AppendsIncrease(w, Replay(w, replayFails), rounds)
    ensures var r := Played(w, Replay(w, replayFails), rounds).1; frames == r.frames && status == r.status
  {
    assert rounds[..0] == [];
    if replayFails {
      StoppedStays(w, Replay(w, true), rounds, 0);
      return [], ReplayFailed;
    }
    var lastId, terminal;
    frames, lastId, terminal := SendReplay(w.log, w.trimmed);
    if terminal {
      StoppedStays(w, Replay(w, false), rounds, 0);
      return frames, EndedTerminal;
    }
    frames, status := FollowRounds(w, Replay(w, false), rounds, frames, lastId);
  }

  lemma {:induction false} StoppedStays(w: World, r: Reader, rounds: seq<Round>, i: nat)
    requires w.trimmed <= |w.log| && r.cursor <= |w.log| && i <= |rounds|
    requires Played(w, r, rounds[..i]).1.status != Following
    ensures Played(w, r, rounds).1 == Played(w, r, rounds[..i]).1
    decreases |rounds| - i
  {
    if i == |rounds| {
      assert rounds[..i] == rounds;
    } else {
      assert rounds[..i + 1][..i] == rounds[..i];
      StoppedStays(w, r, rounds, i + 1);
    }
  }

  // ---------- what the client sees ----------

  function SentEvents(frames: seq<Frame>): seq<Event> {
    if frames == [] then []
    else
      var last := frames[|frames| - 1];
      SentEvents(frames[..|frames| - 1]) + if last.Sent? then [last.event] else []
  }

  lemma {:induction false} SentEventsConcat(a: seq<Frame>, b: seq<Frame>)
    ensures SentEvents(a + b) == SentEvents(a) + SentEvents(b)
  {
    if b == [] {
      assert a + b == a;
    } else {
      assert (a + b)[..|a + b| - 1] == a + b[..|b| - 1];
      SentEventsConcat(a, b[..|b| - 1]);
    }
  }

  lemma {:induction false} SentEventsSendAll(events: seq<Event>)
    ensures SentEvents(SendAll(events)) == events
  {
    if events != [] {
      assert SendAll(events)[..|events| - 1] == SendAll(events[..|events| - 1]);
      SentEventsSendAll(events[..|events| - 1]);
    }
  }

  function At(log: seq<Event>, positions: seq<nat>): seq<Event>
    requires forall i :: 0 <= i < |positions| ==> positions[i] < |log|
  {
    seq(|positions|, i requires 0 <= i < |positions| => log[positions[i]])
  }

  /** The reader sent log entries in order, each at most once; below its cursor, everything not
      sent was trimmed away before the reader got there; and it ended on a terminal event exactly
      if it sent one. */
  ghost predicate WellRead(w: World, r: Reader) {
    && r.cursor <= |w.log| && w.trimmed <= |w.log|
    && (forall i :: 0 <= i < |r.sent| ==> r.sent[i] < r.cursor)
    && (forall i, j :: 0 <= i < j < |r.sent| ==> r.sent[i] < r.sent[j])
    && (forall k: nat :: k < r.cursor && k !in r.sent ==> k in r.missed)
    && (forall k :: k in r.missed ==> k < r.cursor && k < w.trimmed && k !in r.sent)
    && SentEvents(r.frames) == At(w.log, r.sent)
    && (r.status == EndedTerminal <==> HasTerminal(SentEvents(r.frames)))
  }

  lemma ReplayWellRead(w: World, fails: bool)
    requires w.trimmed <= |w.log|
    ensures WellRead(w, Replay(w, fails))
  {
    var r, live := Replay(w, fails), w.log[w.trimmed..];
    if !fails {
      SentEventsSendAll(live);
      assert At(w.log, r.sent) == live;
    }
  }

  lemma EvolveWellRead(w: World, r: Reader, round: Round)
    requires WellRead(w, r)
    ensures WellRead(Evolve(w, round), r)
  {
    assert At(Evolve(w, round).log, r.sent) == At(w.log, r.sent);
  }

  lemma FollowSent(w: World, r: Reader)
    requires WellRead(w, r) && r.status == Following && Max(r.cursor, w.trimmed) < |w.log|
    ensures var r' := Follow(w, r, Answered);
            && (forall i :: 0 <= i < |r'.sent| ==> r'.sent[i] < r'.cursor)
            && (forall i, j :: 0 <= i < j < |r'.sent| ==> r'.sent[i] < r'.sent[j])
            && (forall k: nat :: k < r'.cursor && k !in r'.sent ==> k in r'.missed)
            && (forall k :: k in r'.missed ==> k < r'.cursor && k < w.trimmed && k !in r'.sent)
  {
    var start := Max(r.cursor, w.trimmed);
    var n := ThroughTerminal(w.log[start..]);
    var more := Positions(start, n);
    var r' := Follow(w, r, Answered);
    assert r'.sent == r.sent + more;
  }

  lemma {:induction false} AtConcat(log: seq<Event>, sent: seq<nat>, from: nat, n: nat)
    requires (forall i :: 0 <= i < |sent| ==> sent[i] < |log|) && from + n <= |log|
    ensures At(log, sent + Positions(from, n)) == At(log, sent) + log[from..][..n]
  {
  }

  lemma TerminalConcat(a: seq<Event>, b: seq<Event>)
    ensures HasTerminal(a + b) <==> HasTerminal(a) || HasTerminal(b)
  {
    assert forall e :: e in a + b <==> e in a || e in b;
  }

  lemma FollowFrames(w: World, r: Reader)
    requires WellRead(w, r) && r.status == Following && Max(r.cursor, w.trimmed) < |w.log|
    ensures var r' := Follow(w, r, Answered);
            && (forall i :: 0 <= i < |r'.sent| ==> r'.sent[i] < |w.log|)
            && SentEvents(r'.frames) == At(w.log, r'.sent)
            && (r'.status == EndedTerminal <==> HasTerminal(SentEvents(r'.frames)))
  {
    var start := Max(r.cursor, w.trimmed);
    var batch := w.log[start..];
    var n := ThroughTerminal(batch);
    var r' := Follow(w, r, Answered);
    SentEventsConcat(r.frames, SendAll(batch[..n]));
    SentEventsSendAll(batch[..n]);
    AtConcat(w.log, r.sent, start, n);
    ThroughTerminalExact(batch);
    TerminalConcat(SentEvents(r.frames), batch[..n]);
  }

  lemma FollowWellRead(w: World, r: Reader, outcome: Outcome)
    requires WellRead(w, r)
    ensures WellRead(w, Follow(w, r, outcome))
  {
    if r.status == Following {
      if outcome == ReadFails { SentEventsConcat(r.frames, [ErrorFrame]); }
      if outcome == Answered {
        if Max(r.cursor, w.trimmed) < |w.log| {
          FollowSent(w, r);
          FollowFrames(w, r);
        } else {
          SentEventsConcat(r.frames, [Ping]);
        }
      }
    }
  }

  lemma {:induction false} PlayedWellRead(w: World, r: Reader, rounds: seq<Round>)
    requires WellRead(w, r)
    ensures WellRead(Played(w, r, rounds).0, Played(w, r, rounds).1)
  {
    if rounds != [] {
      PlayedWellRead(w, r, rounds[..|rounds| - 1]);
      var before := Played(w, r, rounds[..|rounds| - 1]);
      EvolveWellRead(before.0, before.1, rounds[|rounds| - 1]);
      FollowWellRead(Evolve(before.0, rounds[|rounds| - 1]), before.1, rounds[|rounds| - 1].outcome);
    }
  }

  /** An entry below the cursor is among the received ones exactly if it was not missed. */
  lemma ReceivedUnlessMissed(w: World, r: Reader, k: nat)
    requires WellRead(w, r) && Increasing(w.log) && k < r.cursor
    ensures w.log[k] in SentEvents(r.frames) <==> k !in r.missed
  {
    var got := SentEvents(r.frames);
    if w.log[k] in got {
      var i :| 0 <= i < |got| && got[i] == w.log[k];
      assert got[i] == w.log[r.sent[i]] && r.sent[i] in r.sent;
    }
    if k in r.sent {
      var i :| 0 <= i < |r.sent| && r.sent[i] == k;
      assert got[i] == w.log[k];
    }
  }

  lemma ReceivedInOrder(w: World, r: Reader, i: nat, j: nat)
    requires WellRead(w, r) && Increasing(w.log) && i < j < |r.sent|
    ensures SentEvents(r.frames)[i].id < SentEvents(r.frames)[j].id
  {
    assert At(w.log, r.sent)[i] == w.log[r.sent[i]] && At(w.log, r.sent)[j] == w.log[r.sent[j]];
  }

  /** Reader against concurrent appends and trimming, over every run: the client gets log entries
      in strictly increasing id order, never twice; every entry below the reader's cursor that it
      did not get had been trimmed before the reader came to it; and the stream has ended with a
      terminal event exactly if the client received one. */
  lemma {:induction false} ClientSeesLog(w: World, fails: bool, rounds: seq<Round>)
    requires w.trimmed <= |w.log| && Increasing(Played(w, Replay(w, fails), rounds).0.log)
    ensures var p := Played(w, Replay(w, fails), rounds);
            var got := SentEvents(p.1.frames);
            && WellRead(p.0, p.1)
            && (forall i, j :: 0 <= i < j < |got| ==> got[i].id < got[j].id)
            && (forall k: nat :: k < p.1.cursor ==> (p.0.log[k] in got <==> k !in p.1.missed))
            && (p.1.status == EndedTerminal <==> HasTerminal(got))
  {
    ReplayWellRead(w, fails);
    PlayedWellRead(w, Replay(w, fails), rounds);
    var p := Played(w, Replay(w, fails), rounds);
    forall k: nat | k < p.1.cursor ensures p.0.log[k] in SentEvents(p.1.frames) <==> k !in p.1.missed {
      ReceivedUnlessMissed(p.0, p.1, k);
    }
    var got := SentEvents(p.1.frames);
    forall i, j | 0 <= i < j < |got| ensures got[i].id < got[j].id {
      ReceivedInOrder(p.0, p.1, i, j);
    }
  }

  lemma NoneBelowZero(sent: seq<nat>, n: nat)
    requires forall i :: 0 <= i < |sent| ==> sent[i] < n
    ensures sent != [] ==> 0 < n
  {
    if sent != [] { assert sent[0] < n; }
  }

  lemma {:induction false} DenseIsIdentity(sent: seq<nat>, n: nat)
    requires forall i, j :: 0 <= i < j < |sent| ==> sent[i] < sent[j]
    requires forall i :: 0 <= i < |sent| ==> sent[i] < n
    requires forall k: nat :: k < n ==> k in sent
    ensures sent == Positions(0, n)
  {
    if n > 0 {
      assert n - 1 in sent;
      var i :| 0 <= i < |sent| && sent[i] == n - 1;
      var last := |sent| - 1;
      assert sent[i] <= sent[last];
      var init := sent[..last];
      forall k: nat | k < n - 1 ensures k in init {
        assert k in sent;
        var j :| 0 <= j < |sent| && sent[j] == k;
        assert init[j] == k;
      }
      DenseIsIdentity(init, n - 1);
      assert sent == init + [n - 1];
    } else {
      NoneBelowZero(sent, n);
      assert sent == [];
    }
  }

  lemma NothingMissed(w: World, r: Reader)
    requires WellRead(w, r) && w.trimmed == 0
    ensures SentEvents(r.frames) == w.log[..r.cursor]
  {
    forall k: nat | k < r.cursor ensures k in r.sent {}
    DenseIsIdentity(r.sent, r.cursor);
  }

  /** Without trimming the client has received exactly a prefix of the stream. */
  lemma {:induction false} NoTrimNoGaps(w: World, fails: bool, rounds: seq<Round>)
    requires w.trimmed <= |w.log| && Played(w, Replay(w, fails), rounds).0.trimmed == 0
    ensures var p := Played(w, Replay(w, fails), rounds);
            SentEvents(p.1.frames) == p.0.log[..p.1.cursor]
  {
    ReplayWellRead(w, fails);
    PlayedWellRead(w, Replay(w, fails), rounds);
    var p := Played(w, Replay(w, fails), rounds);
    NothingMissed(p.0, p.1);
  }

  /** An answered read catches up: a reader still following afterwards has passed every entry. */
  lemma AnsweredReadCatchesUp(w: World, r: Reader)
    requires WellRead(w, r) && r.status == Following
    ensures var r' := Follow(w, r, Answered);
            r'.status == Following ==> Max(r'.cursor, w.trimmed) == |w.log|
    ensures var r' := Follow(w, r, Answered);
            (exists k :: Max(r.cursor, w.trimmed) <= k < |w.log| && IsTerminal(w.log[k])) ==> r'.status == EndedTerminal
  {
    var batch := w.log[Max(r.cursor, w.trimmed)..];
    ThroughTerminalExact(batch);
    if k :| Max(r.cursor, w.trimmed) <= k < |w.log| && IsTerminal(w.log[k]) {
      assert batch[k - Max(r.cursor, w.trimmed)] == w.log[k];
    }
  }
}
