/** Every error of every text: how far the tokens can be read one by one, what stands there, and which
    division by zero comes before.
 */
module CalculatorErrors {
  import opened Calculator
  import opened CalculatorLexer
  import opened CalculatorParser
  import opened CalculatorTexts
  import opened Wrappers

  // ---------- reading token by token ----------

  /** Where reading stands: whether an operand comes next, and how many parentheses are open. */
  datatype Place = Place(operand: bool, open: nat)

  /** The place behind one more token, if that can stand there. */
  function Next(p: Place, t: Token): Option<Place> {
    if p.operand then
      match t
      case Number(_) => Some(Place(false, p.open))
      case LeftParen => if p.open < 16 then Some(Place(true, p.open + 1)) else None
      case _ => None
    else if t in {Plus, Minus, Multiply, Divide} then Some(Place(true, p.open))
    else if t == RightParen && p.open > 0 then Some(Place(false, p.open - 1))
    else None
  }

  function Reached(tokens: seq<Token>, n: nat): Option<Place>
    requires n <= |tokens|
  {
    if n == 0 then Some(Place(true, 0))
    else match Reached(tokens, n - 1)
      case None => None
      case Some(p) => Next(p, tokens[n - 1])
  }

  /** Reading gets to position `n`, and no further. */
  ghost predicate Stops(tokens: seq<Token>, n: nat, p: Place) {
    n <= |tokens| && Reached(tokens, n) == Some(p) && (n < |tokens| ==> Next(p, tokens[n]).None?)
  }

  /** What is wrong with the token, or the missing one, where reading stops. */
  function Blame(tokens: seq<Token>, n: nat, p: Place): EvalError
    requires n <= |tokens|
  {
    if !p.operand then MissingClosingParen
    else if n == |tokens| || tokens[n] == Eof then UnexpectedEnd
    else if tokens[n] == LeftParen then TooDeep
    else if tokens[n] == RightParen then UnexpectedClosingParen
    else UnexpectedToken(tokens[n])
  }

  /** A division that is reached, by a factor of value zero that nests within the limit. */
  ghost predicate ZeroAt(tokens: seq<Token>, i: nat) {
    && i < |tokens| && tokens[i] == Divide && Reached(tokens, i).Some? && !Reached(tokens, i).value.operand
    && exists f :: At(tokens, i + 1, FactorTokens(f)) && Reached(tokens, i).value.open + FactorNesting(f) <= 16
                   && FactorValue(f) == Some(0.0)
  }

  ghost predicate NoZero(tokens: seq<Token>, from: nat, end: nat) {
    forall i :: from <= i < end ==> !ZeroAt(tokens, i)
  }

  // ---------- the parsing functions read just so ----------

  /** The error of a part read from `from` on. */
  ghost predicate Stuck(tokens: seq<Token>, from: nat, e: EvalError) {
    if e == DivisionByZero then exists i: nat :: from <= i && ZeroAt(tokens, i)
    else exists n: nat, p :: from <= n && Stops(tokens, n, p) && p != Place(false, 0) && e == Blame(tokens, n, p)
                             && NoZero(tokens, from, n)
  }

  /** Outcome of reading a part from `from` on, inside `depth` parentheses. */
  ghost predicate Follows(tokens: seq<Token>, from: nat, depth: nat, r: Parsed) {
    match r
    case Value(_, end) =>
      from <= end <= |tokens| && Reached(tokens, end) == Some(Place(false, depth)) && NoZero(tokens, from, end)
    case Error(e) => Stuck(tokens, from, e)
  }

  lemma StartsEarlier(tokens: seq<Token>, from: nat, mid: nat, depth: nat, r: Parsed)
    requires from <= mid && NoZero(tokens, from, mid) && Follows(tokens, mid, depth, r)
    ensures Follows(tokens, from, depth, r)
  {
    if r.Error? && r.error != DivisionByZero {
      var n: nat, p :| mid <= n && Stops(tokens, n, p) && p != Place(false, 0) && r.error == Blame(tokens, n, p)
                       && NoZero(tokens, mid, n);
      assert NoZero(tokens, from, n);
    }
  }

  lemma StuckHere(tokens: seq<Token>, n: nat, p: Place)
    requires Stops(tokens, n, p) && p != Place(false, 0)
    ensures Stuck(tokens, n, Blame(tokens, n, p))
  {
    assert NoZero(tokens, n, n);
  }

  lemma {:induction false} ZeroIff(tokens: seq<Token>, i: nat, depth: nat)
    requires i < |tokens| && tokens[i] == Divide && Reached(tokens, i) == Some(Place(false, depth)) && depth <= 16
    ensures ZeroAt(tokens, i) <==> FactorOf(tokens, i + 1, depth).Value? && FactorOf(tokens, i + 1, depth).value == 0.0
  {
    if ZeroAt(tokens, i) {
      var f :| At(tokens, i + 1, FactorTokens(f)) && depth + FactorNesting(f) <= 16 && FactorValue(f) == Some(0.0);
      FactorRead(tokens, i + 1, f, depth);
      FactorAgrees(f, depth);
    }
    if FactorOf(tokens, i + 1, depth).Value? {
      var f := FactorSound(tokens, i + 1, depth);
      FactorAgrees(f, depth);
    }
  }

  lemma {:induction false} FactorFollows(tokens: seq<Token>, pos: nat, depth: nat)
    requires pos <= |tokens| && Reached(tokens, pos) == Some(Place(true, depth)) && depth <= 16
    ensures Follows(tokens, pos, depth, FactorOf(tokens, pos, depth))
    decreases |tokens| - pos, 0
  {
    if pos < |tokens| && tokens[pos].Number? {
      assert NoZero(tokens, pos, pos + 1);
    } else if pos < |tokens| && tokens[pos] == LeftParen && depth < 16 {
      ParensFollow(tokens, pos, depth);
    } else {
      StuckHere(tokens, pos, Place(true, depth));
    }
  }

  /** Behind the inner expression stands its closing parenthesis, or reading is stuck for want of it. */
  lemma {:induction false} ClosingFollows(tokens: seq<Token>, pos: nat, p: nat, depth: nat)
    requires pos < p <= |tokens| && Reached(tokens, p) == Some(Place(false, depth + 1)) && NoZero(tokens, pos, p)
    requires !IsAdditive(tokens, p) && !IsMultiplicative(tokens, p)
    ensures if p < |tokens| && tokens[p] == RightParen
            then Reached(tokens, p + 1) == Some(Place(false, depth)) && NoZero(tokens, pos, p + 1)
            else Follows(tokens, pos, depth, Error(MissingClosingParen))
  {
    if p == |tokens| || tokens[p] != RightParen {
      StuckHere(tokens, p, Place(false, depth + 1));
      StartsEarlier(tokens, pos, p, depth, Error(MissingClosingParen));
    }
  }

  lemma {:induction false} ParensFollow(tokens: seq<Token>, pos: nat, depth: nat)
    requires pos < |tokens| && tokens[pos] == LeftParen
    requires Reached(tokens, pos) == Some(Place(true, depth)) && depth < 16
    ensures Follows(tokens, pos, depth, FactorOf(tokens, pos, depth))
    decreases |tokens| - pos - 1, 4
  {
    var inner := Expression(tokens, pos + 1, depth + 1);
    ExpressionFollows(tokens, pos + 1, depth + 1);
    assert NoZero(tokens, pos, pos + 1);
    if inner.Value? {
      var e := ExprSound(tokens, pos + 1, depth + 1);
      ClosingFollows(tokens, pos, inner.pos, depth);
    } else {
      StartsEarlier(tokens, pos, pos + 1, depth, inner);
    }
  }

  lemma {:induction false} TermLoopFollows(tokens: seq<Token>, acc: real, pos: nat, depth: nat)
    requires pos <= |tokens| && Reached(tokens, pos) == Some(Place(false, depth)) && depth <= 16
    ensures Follows(tokens, pos, depth, TermLoop(tokens, acc, pos, depth))
    decreases |tokens| - pos, 1
  {
    if IsMultiplicative(tokens, pos) {
      var factor := FactorOf(tokens, pos + 1, depth);
      FactorFollows(tokens, pos + 1, depth);
      if tokens[pos] == Divide { ZeroIff(tokens, pos, depth); }
      if tokens[pos] == Divide && factor.Value? && factor.value == 0.0 {
        assert ZeroAt(tokens, pos);
      } else {
        assert NoZero(tokens, pos, pos + 1);
        if factor.Value? {
          var Means(result) := Combined(tokens[pos], acc, factor.value);
          TermLoopFollows(tokens, result, factor.pos, depth);
          StartsEarlier(tokens, pos, factor.pos, depth, TermLoop(tokens, result, factor.pos, depth));
        } else {
          StartsEarlier(tokens, pos, pos + 1, depth, factor);
        }
      }
    }
  }

  lemma {:induction false} TermFollows(tokens: seq<Token>, pos: nat, depth: nat)
    requires pos <= |tokens| && Reached(tokens, pos) == Some(Place(true, depth)) && depth <= 16
    ensures Follows(tokens, pos, depth, TermOf(tokens, pos, depth))
    decreases |tokens| - pos, 1
  {
    FactorFollows(tokens, pos, depth);
    var first := FactorOf(tokens, pos, depth);
    if first.Value? {
      TermLoopFollows(tokens, first.value, first.pos, depth);
      StartsEarlier(tokens, pos, first.pos, depth, TermLoop(tokens, first.value, first.pos, depth));
    }
  }

  lemma {:induction false} ExpressionLoopFollows(tokens: seq<Token>, acc: real, pos: nat, depth: nat)
    requires pos <= |tokens| && Reached(tokens, pos) == Some(Place(false, depth)) && depth <= 16
    ensures Follows(tokens, pos, depth, ExpressionLoop(tokens, acc, pos, depth))
    decreases |tokens| - pos, 2
  {
    if IsAdditive(tokens, pos) {
      var term := TermOf(tokens, pos + 1, depth);
      TermFollows(tokens, pos + 1, depth);
      assert NoZero(tokens, pos, pos + 1);
      if term.Value? {
        var sum := if tokens[pos] == Plus then acc + term.value else acc - term.value;
        ExpressionLoopFollows(tokens, sum, term.pos, depth);
        StartsEarlier(tokens, pos, term.pos, depth, ExpressionLoop(tokens, sum, term.pos, depth));
      } else {
        StartsEarlier(tokens, pos, pos + 1, depth, term);
      }
    }
  }

  lemma {:induction false} ExpressionFollows(tokens: seq<Token>, pos: nat, depth: nat)
    requires pos <= |tokens| && Reached(tokens, pos) == Some(Place(true, depth)) && depth <= 16
    ensures Follows(tokens, pos, depth, Expression(tokens, pos, depth))
    decreases |tokens| - pos, 2
  {
    TermFollows(tokens, pos, depth);
    var first := TermOf(tokens, pos, depth);
    if first.Value? {
      ExpressionLoopFollows(tokens, first.value, first.pos, depth);
      StartsEarlier(tokens, pos, first.pos, depth, ExpressionLoop(tokens, first.value, first.pos, depth));
    }
  }

  // ---------- the outcome of a whole text ----------

  lemma {:induction false} StopsSomewhere(tokens: seq<Token>, n: nat) returns (m: nat, p: Place)
    requires n <= |tokens| && Reached(tokens, n).Some?
    ensures n <= m && Stops(tokens, m, p)
    decreases |tokens| - n
  {
    p := Reached(tokens, n).value;
    if n == |tokens| || Next(p, tokens[n]).None? {
      m := n;
    } else {
      m, p := StopsSomewhere(tokens, n + 1);
    }
  }

  lemma {:induction false} ReachedBefore(tokens: seq<Token>, n: nat, m: nat)
    requires n <= m <= |tokens| && Reached(tokens, m).Some?
    ensures Reached(tokens, n).Some?
    decreases m
  {
    if n < m { ReachedBefore(tokens, n, m - 1); }
  }

  /** Reading stops at one place only, and no division is reached there or behind it. */
  lemma {:induction false} StopsOnce(tokens: seq<Token>, n: nat, p: Place, m: nat)
    requires Stops(tokens, n, p) && m <= |tokens| && Reached(tokens, m).Some?
    ensures m <= n && (ZeroAt(tokens, m) ==> m < n)
  {
    if m > n { ReachedBefore(tokens, n + 1, m); }
  }

  /** What parsing comes to: a division by zero if one is reached; else a value if reading stops behind an
      operand with no parenthesis open; else the error of the place where it stops. */
  lemma {:induction false} ParseOutcome(tokens: seq<Token>, n: nat, p: Place)
    requires Stops(tokens, n, p)
    ensures var r := Expression(tokens, 0, 0);
            if exists i: nat :: ZeroAt(tokens, i) then r == Error(DivisionByZero)
            else if p == Place(false, 0) then r.Value? && r.pos == n
            else r == Error(Blame(tokens, n, p))
  {
    var r := Expression(tokens, 0, 0);
    ExpressionFollows(tokens, 0, 0);
    forall i: nat | ZeroAt(tokens, i) ensures i < n { StopsOnce(tokens, n, p, i); }
    if r.Value? {
      var e := ExprSound(tokens, 0, 0);
      assert Stops(tokens, r.pos, Place(false, 0));
      StopsOnce(tokens, n, p, r.pos);
      StopsOnce(tokens, r.pos, Place(false, 0), n);
    } else if r.error != DivisionByZero {
      var m: nat, q :| Stops(tokens, m, q) && q != Place(false, 0) && r.error == Blame(tokens, m, q)
                       && NoZero(tokens, 0, m);
      StopsOnce(tokens, n, p, m);
      StopsOnce(tokens, m, q, n);
    }
  }

  /** The error of a text's tokens, from these alone. */
  ghost predicate FailsWith(tokens: seq<Token>, x: EvalError) {
    if exists i: nat :: ZeroAt(tokens, i) then x == DivisionByZero
    else exists n: nat, p :: Stops(tokens, n, p) && p != Place(false, 0) && x == Blame(tokens, n, p)
  }

  lemma {:induction false} ParseFailsIff(tokens: seq<Token>, x: EvalError)
    ensures Expression(tokens, 0, 0) == Error(x) <==> FailsWith(tokens, x)
  {
    var n, p := StopsSomewhere(tokens, 0);
    ParseOutcome(tokens, n, p);
    if m: nat, q :| Stops(tokens, m, q) && q != Place(false, 0) && x == Blame(tokens, m, q) {
      StopsOnce(tokens, n, p, m);
      StopsOnce(tokens, m, q, n);
    }
  }

  /** A text fails to evaluate, with a certain error, exactly if it is some written tokens, spaced in any
      way, that fail with it. */
  lemma ErrorExact(text: string, x: EvalError)
    ensures Evaluated(text) == Err(EvaluationFailed(x)) <==>
            exists ws, gaps :: Writes(text, ws, gaps) && FailsWith(Inserted(ws, true) + [Eof], x)
  {
    forall ws, gaps | Writes(text, ws, gaps) ensures Tokenized(text) == Tokens(Inserted(ws, true) + [Eof]) {
      ReadIffWritten(text, Inserted(ws, true));
    }
    if Tokenized(text).Tokens? {
      var ws, gaps := WrittenOfLex(text, true);
      ParseFailsIff(Tokenized(text).tokens, x);
    }
  }
}
