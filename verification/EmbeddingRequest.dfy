/** One request of the embedding service: attempts, their classification by error text, and the
    retry loop.
 */
module EmbeddingRequest {
  import opened ErrorTexts
  import opened Sequences

  type Vector = seq<real>

  datatype Embedding = Embedding(vectors: seq<Vector>, model: string, provider: string, cached: bool)

  /** What one HTTP attempt yields; a transient failure may be retried. */
  datatype Attempt = Answered(result: Embedding) | Transient | Permanent

  datatype Error = EmptyText | Rejected | Cancelled | RetriesExhausted

  datatype Outcome = Done(result: Embedding) | Failed(error: Error)

  // ---------- one attempt ----------

  /** The body of an answer, read as vectors or refused with a message. */
  datatype Content = Vectors(result: Embedding) | Garbled(message: string)

  /** What the HTTP exchange comes to: no answer, for a reason given as text, or an answer. */
  datatype Reply = NoAnswer(message: string) | Replied(code: nat, body: string, content: Content)

  const OK_CODE := 200

  function ErrorAttempt(message: string): Attempt {
    if IsTransient(message) then Transient else Permanent
  }

  ghost predicate HaveDimension(vectors: seq<Vector>, expected: nat) {
    forall i :: 0 <= i < |vectors| ==> |vectors[i]| == expected
  }

  /** The first vector from `from` on that has the wrong dimension. */
  function FirstMismatch(vectors: seq<Vector>, expected: nat, from: nat): nat
    requires from <= |vectors|
    decreases |vectors| - from
  {
    if from == |vectors| || |vectors[from]| != expected then from else FirstMismatch(vectors, expected, from + 1)
  }

  function Classified(reply: Reply, expected: nat): Attempt {
    match reply
    case NoAnswer(message) => ErrorAttempt(message)
    case Replied(code, body, content) =>
      if code != OK_CODE then ErrorAttempt(StatusMessage(code, body)) else Checked(content, expected)
  }

  function Checked(content: Content, expected: nat): Attempt {
    match content
    case Garbled(message) => ErrorAttempt(message)
    case Vectors(result) =>
      var i := FirstMismatch(result.vectors, expected, 0);
      if i < |result.vectors| then ErrorAttempt(MismatchMessage(i, |result.vectors[i]|, expected)) else Answered(result)
  }

  lemma {:induction false} FirstMismatchExact(vectors: seq<Vector>, expected: nat, from: nat)
    requires from <= |vectors|
    ensures var i := FirstMismatch(vectors, expected, from);
            && from <= i <= |vectors| && (forall j :: from <= j < i ==> |vectors[j]| == expected)
            && (i < |vectors| ==> |vectors[i]| != expected)
    decreases |vectors| - from
  {
    if from < |vectors| && |vectors[from]| == expected {
      FirstMismatchExact(vectors, expected, from + 1);
    }
  }

  /** An attempt yields an answer exactly if the exchange succeeded and all vectors have the expected
      dimension; it is that answer. */
  lemma AnsweredIffDimensions(reply: Reply, expected: nat, result: Embedding)
    ensures Classified(reply, expected) == Answered(result) <==>
            && reply.Replied? && reply.code == 200 && reply.content == Vectors(result)
            && HaveDimension(result.vectors, expected)
  {
    if reply.Replied? && reply.content.Vectors? { FirstMismatchExact(reply.content.result.vectors, expected, 0); }
  }

  method DoEmbed(reply: Reply, expected: nat) returns (a: Attempt)
    ensures a == Classified(reply, expected)
  {
    if reply.NoAnswer? {
      return ErrorAttempt(reply.message);
    }
    if reply.code != OK_CODE {
      return ErrorAttempt(StatusMessage(reply.code, reply.body));
    }
    match reply.content {
      case Garbled(message) => return ErrorAttempt(message);
      case Vectors(result) =>
        for i := 0 to |result.vectors|
          invariant FirstMismatch(result.vectors, expected, 0) == FirstMismatch(result.vectors, expected, i)
        {
          if |result.vectors[i]| != expected {
            return ErrorAttempt(MismatchMessage(i, |result.vectors[i]|, expected));
          }
        }
        a := Answered(result);
    }
  }

  // ---------- what is retried ----------

  /** Telling errors apart by their text, the service retries a wrong dimension exactly if the
      position, the dimension or the expected dimension has one of the server error codes among
      its digits. */
  lemma {:induction false} MismatchRetriedIff(index: nat, dim: nat, expected: nat)
    ensures ErrorAttempt(MismatchMessage(index, dim, expected)).Transient? <==>
            NamesServerError(Decimal(index)) || NamesServerError(Decimal(dim)) || NamesServerError(Decimal(expected))
  {
    MismatchTransientIff(index, dim, expected);
  }

  /** Five hundred coordinates in place of 1536 are asked for again. */
  lemma MismatchRetried(result: Embedding)
    requires |result.vectors| == 1 && |result.vectors[0]| == 500
    ensures Classified(Replied(200, "", Vectors(result)), 1536).Transient?
  {
    assert FirstMismatch(result.vectors, 1536, 0) == 0;
    FiveHundred();
    MismatchRetriedIff(0, 500, 1536);
  }

  /** A status other than 200 is retried exactly if it reads like a server error, which of three
      digits those from 500 to 599 do, or the body does: has the digits of a server error code in
      it, or a status beginning with 5. */
  lemma StatusRetriedIff(code: nat, body: string, content: Content, expected: nat)
    requires code != 200
    ensures Classified(Replied(code, body, content), expected).Transient? <==>
            LooksLikeServerError(code) || NamesServerError(body) || Contains(body, STATUS_FIVE)
    ensures 100 <= code <= 999 ==> (LooksLikeServerError(code) <==> 500 <= code <= 599)
  {
    StatusTransientIff(code, body);
    if 100 <= code <= 999 { ServerErrorsLookIt(code); }
  }

  /** A bad request is made again because its answer mentions a number. */
  lemma BadRequestRetried(content: Content, expected: nat)
    ensures Classified(Replied(400, "at most 500 texts", content), expected).Transient?
  {
    ContainsAt("at most 500 texts", "500", 8);
    StatusRetriedIff(400, "at most 500 texts", content, expected);
  }

  /** The text has the mark of a server error in it. */
  ghost predicate Marked(text: string) {
    exists mark, i: nat :: mark in {"status 5", "500", "502", "503", "504"} && Stands(text, mark, i)
  }

  ghost predicate Stands(text: string, part: string, i: nat) {
    i + |part| <= |text| && text[i..i + |part|] == part
  }

  lemma ContainsIff(text: string, part: string)
    ensures Contains(text, part) <==> exists i: nat :: Stands(text, part, i)
  {
    if Contains(text, part) {
      var i := ContainedAt(text, part);
      assert Stands(text, part, i);
    }
    if i: nat :| Stands(text, part, i) {
      ContainsAt(text, part, i);
    }
  }

  lemma TransientIfMarked(text: string)
    ensures ErrorAttempt(text).Transient? <==> Marked(text)
  {
    ContainsIff(text, "status 5");
    ContainsIff(text, "500");
    ContainsIff(text, "502");
    ContainsIff(text, "503");
    ContainsIff(text, "504");
  }

  /** The error text of an exchange that fails. */
  ghost predicate Says(reply: Reply, expected: nat, text: string) {
    match reply
    case NoAnswer(message) => text == message
    case Replied(code, body, content) =>
      if code != 200 then text == "embeddings: server returned status " + (Decimal(code) + (": " + body))
      else match content
        case Garbled(message) => text == message
        case Vectors(e) =>
          exists i :: && 0 <= i < |e.vectors| && |e.vectors[i]| != expected
                      && (forall j :: 0 <= j < i ==> |e.vectors[j]| == expected)
                      && text == "embeddings: vector " + (Decimal(i) + (" has dimension " + (Decimal(|e.vectors[i]|)
                                 + (", expected " + Decimal(expected)))))
  }

  lemma SaidIsTheError(reply: Reply, expected: nat, text: string)
    requires Says(reply, expected, text)
    ensures Classified(reply, expected) == ErrorAttempt(text)
  {
    if reply.Replied? {
      if reply.code != 200 {
        StatusText(reply.code, reply.body);
      } else if reply.content.Vectors? {
        FirstMismatchExact(reply.content.result.vectors, expected, 0);
      }
    }
  }

  lemma {:induction false} StatusText(code: nat, body: string)
    ensures StatusMessage(code, body) == "embeddings: server returned status " + (Decimal(code) + (": " + body))
  {
    assert INTRO + STATUS_TEXT == "embeddings: server returned status ";
    Associates(INTRO, STATUS_TEXT, Decimal(code) + (": " + body));
  }

  lemma ErrorIsSaid(reply: Reply, expected: nat) returns (text: string)
    requires !Classified(reply, expected).Answered?
    ensures Says(reply, expected, text)
  {
    match reply
    case NoAnswer(message) => text := message;
    case Replied(code, body, content) =>
      if code != 200 {
        text := StatusMessage(code, body);
        StatusText(code, body);
      } else {
        match content
        case Garbled(message) => text := message;
        case Vectors(e) =>
          FirstMismatchExact(e.vectors, expected, 0);
          var i := FirstMismatch(e.vectors, expected, 0);
          text := MismatchMessage(i, |e.vectors[i]|, expected);
      }
  }

  /** Whatever goes wrong with an attempt, it is made again exactly if the text of its error is marked. */
  lemma RetriedIff(reply: Reply, expected: nat)
    ensures Classified(reply, expected).Transient? <==> exists text :: Says(reply, expected, text) && Marked(text)
    ensures Classified(reply, expected).Permanent? <==> exists text :: Says(reply, expected, text) && !Marked(text)
  {
    forall text | Says(reply, expected, text)
      ensures Classified(reply, expected) == ErrorAttempt(text) && (ErrorAttempt(text).Transient? <==> Marked(text))
    {
      SaidIsTheError(reply, expected, text);
      TransientIfMarked(text);
    }
    if !Classified(reply, expected).Answered? { var text := ErrorIsSaid(reply, expected); }
  }

  // ---------- retry loop ----------

  /** A request: how often it may be retried, what each attempt's exchange comes to, and whether
      the wait before an attempt is cancelled. */
  datatype Request = Request(maxRetries: nat, expected: nat, replies: nat -> Reply, cancelled: nat -> bool)

  function AttemptOf(q: Request, i: nat): Attempt {
    Classified(q.replies(i), q.expected)
  }

  /** Attempt `i` is next: everything before it failed transiently, and no wait before that was
      cancelled. */
  ghost predicate Pending(q: Request, i: nat) {
    (forall j :: 0 <= j < i ==> AttemptOf(q, j).Transient?) && (forall j :: 0 < j < i ==> !q.cancelled(j))
  }

  ghost predicate Made(q: Request, i: nat) {
    i <= q.maxRetries && Pending(q, i) && (i > 0 ==> !q.cancelled(i))
  }

  /** What the loop yields from attempt `from` on. */
  function RetryOutcome(q: Request, from: nat): Outcome
    decreases q.maxRetries + 1 - from
  {
    if from > q.maxRetries then Failed(RetriesExhausted)
    else if from > 0 && q.cancelled(from) then Failed(Cancelled)
    else match AttemptOf(q, from)
      case Answered(result) => Done(result)
      case Permanent => Failed(Rejected)
      case Transient => RetryOutcome(q, from + 1)
  }

  /** Attempt 0 is immediate; every later one first waits, and the wait may be cancelled. */
  method EmbedWithRetry(q: Request) returns (r: Outcome)
    ensures r == RetryOutcome(q, 0) && RetryEnds(q, r)
  {
    RetryExact(q, RetryOutcome(q, 0));
    var attempt := 0;
    while attempt <= q.maxRetries
      invariant 0 <= attempt <= q.maxRetries + 1
      invariant RetryOutcome(q, 0) == RetryOutcome(q, attempt)
    {
      if attempt > 0 && q.cancelled(attempt) {
        return Failed(Cancelled);
      }
      var a := DoEmbed(q.replies(attempt), q.expected);
      match a {
        case Answered(result) => return Done(result);
        case Permanent => return Failed(Rejected);
        case Transient =>
      }
      attempt := attempt + 1;
    }
    r := Failed(RetriesExhausted);
  }

  lemma {:induction false} RetryFrom(q: Request, from: nat)
    requires from <= q.maxRetries + 1 && Pending(q, from)
    ensures RetryEnds(q, RetryOutcome(q, from))
    decreases q.maxRetries + 1 - from
  {
    if from <= q.maxRetries && !(from > 0 && q.cancelled(from)) {
      assert Made(q, from);
      if AttemptOf(q, from).Transient? {
        RetryFrom(q, from + 1);
      }
    }
  }

  lemma {:induction false} RetrySkips(q: Request, n: nat)
    requires n <= q.maxRetries + 1 && Pending(q, n)
    ensures RetryOutcome(q, 0) == RetryOutcome(q, n)
  {
    if n > 0 {
      RetrySkips(q, n - 1);
    }
  }

  /** How the loop came to yield `r`. */
  ghost predicate RetryEnds(q: Request, r: Outcome) {
    match r
    case Done(result) => exists i: nat :: Made(q, i) && AttemptOf(q, i) == Answered(result)
    case Failed(Rejected) => exists i: nat :: Made(q, i) && AttemptOf(q, i).Permanent?
    case Failed(Cancelled) => exists i: nat :: 0 < i <= q.maxRetries && Pending(q, i) && q.cancelled(i)
    case Failed(RetriesExhausted) => Pending(q, q.maxRetries + 1)
    case Failed(EmptyText) => false
  }

  /** The retry loop ends in exactly one way: with the first attempt that is not a transient
      failure, with the first cancelled wait before it, or after all attempts. */
  lemma {:induction false} RetryExact(q: Request, r: Outcome)
    ensures r == RetryOutcome(q, 0) <==> RetryEnds(q, r)
  {
    RetryFrom(q, 0);
    if RetryEnds(q, r) {
      var n: nat := q.maxRetries + 1;
      if r.Done? {
        n :| Made(q, n) && AttemptOf(q, n) == Answered(r.result);
      } else if r.error.Rejected? {
        n :| Made(q, n) && AttemptOf(q, n).Permanent?;
      } else if r.error.Cancelled? {
        n :| 0 < n <= q.maxRetries && Pending(q, n) && q.cancelled(n);
      }
      RetrySkips(q, n);
    }
  }

  /** Whatever is retried, an answer that comes through has the expected dimension. */
  lemma {:induction false} RetryKeepsDimension(q: Request)
    ensures RetryOutcome(q, 0).Done? ==> HaveDimension(RetryOutcome(q, 0).result.vectors, q.expected)
  {
    RetryExact(q, RetryOutcome(q, 0));
    if RetryOutcome(q, 0).Done? {
      var i: nat :| Made(q, i) && AttemptOf(q, i) == Answered(RetryOutcome(q, 0).result);
      AnsweredIffDimensions(q.replies(i), q.expected, RetryOutcome(q, 0).result);
    }
  }
}
