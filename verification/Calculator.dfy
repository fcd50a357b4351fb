/** The calculator tool end to end: printing an expression and evaluating the text. */
module Calculator {
  import opened Numbers
  import opened Sequences
  import opened Wrappers
  import opened CalculatorLexer
  import opened CalculatorParser
  import opened CalculatorTexts

  const MAX_EXPR_LENGTH: nat := 256

  datatype CalcError = TooLong | InvalidExpression(lexError: LexError) | EvaluationFailed(evalError: EvalError)

  datatype Result = Ok(value: real) | Err(error: CalcError)

  function Evaluated(expr: string): Result {
    match Tokenized(expr)
    case Invalid(e) => Err(InvalidExpression(e))
    case Tokens(ts) =>
      match Expression(ts, 0, 0)
      case Error(e) => Err(EvaluationFailed(e))
      case Value(v, _) => Ok(v)
  }

  /** Tokens behind the parsed expression are ignored. */
  method EvaluateArithmetic(expr: string) returns (r: Result)
    ensures r == Evaluated(expr)
  {
    var lexed := Tokenize(expr);
    if lexed.Invalid? {
      return Err(InvalidExpression(lexed.error));
    }
    var parsed := ParseExpression(lexed.tokens, 0, 0);
    if parsed.Error? {
      return Err(EvaluationFailed(parsed.error));
    }
    r := Ok(parsed.value);
  }

  method ExecuteCalculator(expr: string) returns (r: Result)
    ensures r == if |expr| > 256 then Err(TooLong) else Evaluated(expr)
  {
    if |expr| > MAX_EXPR_LENGTH {
      return Err(TooLong);
    }
    r := EvaluateArithmetic(expr);
  }

  // ---------- written form ----------

  /** The tokens as written: a leading minus stands alone. */
  function WrittenExpr(e: Expr): seq<Token> {
    match e
    case Single(t) => WrittenTerm(t)
    case Negated(t) => [Minus] + WrittenTerm(t)
    case Add(l, r) => WrittenExpr(l) + [Plus] + WrittenTerm(r)
    case Subtract(l, r) => WrittenExpr(l) + [Minus] + WrittenTerm(r)
  }

  function WrittenTerm(t: Term): seq<Token> {
    match t
    case Just(f) => WrittenFactor(f)
    case Times(l, r) => WrittenTerm(l) + [Multiply] + WrittenFactor(r)
    case Over(l, r) => WrittenTerm(l) + [Divide] + WrittenFactor(r)
  }

  function WrittenFactor(f: Factor): seq<Token> {
    match f
    case Num(v) => [Number(v)]
    case Parens(e) => [LeftParen] + WrittenExpr(e) + [RightParen]
  }

  /** Starts with no operator but perhaps a minus, ends in an operand, and reads as `tokens`. */
  ghost predicate Reads(written: seq<Token>, tokens: seq<Token>, mayNegate: bool) {
    && Separable(written)
    && written != []
    && (written[0].Number? || written[0] == LeftParen || (mayNegate && written[0] == Minus))
    && (written[|written| - 1].Number? || written[|written| - 1] == RightParen)
    && Inserted(written, true) == tokens
    && (!mayNegate ==> Inserted(written, false) == tokens)
  }

  lemma {:induction false} InsertedConcat(a: seq<Token>, b: seq<Token>, start: bool)
    ensures Inserted(a + b, start) == Inserted(a, start) + Inserted(b, StartAfter(a, start))
  {
    if a == [] {
      assert a + b == b;
    } else {
      var front, after := Inserted([a[0]], start), a[0] == LeftParen;
      assert (a + b)[1..] == a[1..] + b && (a + b)[0] == a[0];
      InsertedFirst(a, start);
      InsertedFirst(a + b, start);
      InsertedConcat(a[1..], b, after);
      Associates(front, Inserted(a[1..], after), Inserted(b, StartAfter(a, start)));
    }
  }

  lemma SeparableJoin(a: seq<Token>, op: Token, b: seq<Token>)
    requires Separable(a) && Separable(b) && !op.Number? && op != Eof
    ensures Separable(a + [op] + b)
  {
    var s := a + [op] + b;
    forall i | 0 <= i < |s| - 1 ensures !(s[i].Number? && s[i + 1].Number?) {
      if i < |a| - 1 {
        assert s[i] == a[i] && s[i + 1] == a[i + 1];
      } else if i > |a| {
        assert s[i] == b[i - |a| - 1] && s[i + 1] == b[i - |a|];
      }
    }
  }

  lemma {:induction false} InsertedAfterOperand(op: Token, b: seq<Token>)
    requires op != LeftParen
    ensures Inserted([op] + b, false) == [op] + Inserted(b, false)
  {
    assert ([op] + b)[1..] == b;
  }

  lemma {:induction false} InsertedOperator(a: seq<Token>, op: Token, b: seq<Token>, start: bool)
    requires a != [] && a[|a| - 1] != LeftParen && op != LeftParen
    ensures Inserted(a + [op] + b, start) == Inserted(a, start) + [op] + Inserted(b, false)
  {
    Associates(a, [op], b);
    InsertedConcat(a, [op] + b, start);
    InsertedAfterOperand(op, b);
    Associates(Inserted(a, start), [op], Inserted(b, false));
  }

  lemma ReadsBinary(a: seq<Token>, ta: seq<Token>, op: Token, b: seq<Token>, tb: seq<Token>, mayNegate: bool)
    requires Reads(a, ta, mayNegate) && Reads(b, tb, false)
    requires op in {Plus, Minus, Multiply, Divide}
    ensures Reads(a + [op] + b, ta + [op] + tb, mayNegate)
  {
    SeparableJoin(a, op, b);
    InsertedOperator(a, op, b, true);
    InsertedOperator(a, op, b, false);
  }

  lemma ReadsNegated(t: seq<Token>, tokens: seq<Token>)
    requires Reads(t, tokens, false)
    ensures Reads([Minus] + t, [Number("0"), Minus] + tokens, true)
  {
    SeparableJoin([], Minus, t);
    assert [] + [Minus] + t == [Minus] + t;
    assert ([Minus] + t)[1..] == t;
  }

  lemma ReadsParens(e: seq<Token>, tokens: seq<Token>)
    requires Reads(e, tokens, true)
    ensures Reads([LeftParen] + e + [RightParen], [LeftParen] + tokens + [RightParen], false)
  {
    var s := [LeftParen] + e + [RightParen];
    SeparableJoin([], LeftParen, e);
    assert [] + [LeftParen] + e == [LeftParen] + e;
    SeparableJoin([LeftParen] + e, RightParen, []);
    assert s == [LeftParen] + e + [RightParen] + [];
    forall start ensures Inserted(s, start) == [LeftParen] + tokens + [RightParen] {
      assert s == [LeftParen] + (e + [RightParen]) && s[1..] == e + [RightParen];
      InsertedOperator(e, RightParen, [], true);
      assert e + [RightParen] + [] == e + [RightParen];
    }
  }

  lemma {:induction false} ExprReads(e: Expr)
    ensures Reads(WrittenExpr(e), ExprTokens(e), true)
    decreases e, 2
  {
    match e
    case Single(t) => TermReads(t);
    case Negated(t) =>
      TermReads(t);
      ReadsNegated(WrittenTerm(t), TermTokens(t));
    case Add(l, r) =>
      ExprReads(l);
      TermReads(r);
      ReadsBinary(WrittenExpr(l), ExprTokens(l), Plus, WrittenTerm(r), TermTokens(r), true);
    case Subtract(l, r) =>
      ExprReads(l);
      TermReads(r);
      ReadsBinary(WrittenExpr(l), ExprTokens(l), Minus, WrittenTerm(r), TermTokens(r), true);
  }

  lemma {:induction false} TermReads(t: Term)
    ensures Reads(WrittenTerm(t), TermTokens(t), false)
    decreases t, 1
  {
    match t
    case Just(f) => FactorReads(f);
    case Times(l, r) =>
      TermReads(l);
      FactorReads(r);
      ReadsBinary(WrittenTerm(l), TermTokens(l), Multiply, WrittenFactor(r), FactorTokens(r), false);
    case Over(l, r) =>
      TermReads(l);
      FactorReads(r);
      ReadsBinary(WrittenTerm(l), TermTokens(l), Divide, WrittenFactor(r), FactorTokens(r), false);
  }

  lemma {:induction false} FactorReads(f: Factor)
    ensures Reads(WrittenFactor(f), FactorTokens(f), false)
    decreases f, 0
  {
    match f
    case Num(v) =>
    case Parens(e) =>
      ExprReads(e);
      ReadsParens(WrittenExpr(e), ExprTokens(e));
  }

  // ---------- round trip ----------

  function ResultOf(m: Meaning): Result {
    match m
    case Means(v) => Ok(v)
    case Fails(e) => Err(EvaluationFailed(e))
  }

  function Printed(e: Expr, gaps: seq<string>): string
    requires |gaps| == |WrittenExpr(e)| + 1
  {
    Render(WrittenExpr(e), gaps)
  }

  lemma {:induction false} ExprThenMore(e: Expr, rest: seq<Token>)
    requires !IsAdditive(rest, 0) && !IsMultiplicative(rest, 0)
    ensures Expression(ExprTokens(e) + rest + [Eof], 0, 0) ==
            match ExprMeaning(e, 0)
            case Fails(x) => Error(x)
            case Means(v) => Value(v, |ExprTokens(e)|)
  {
    var tokens := ExprTokens(e);
    var all := tokens + rest + [Eof];
    forall i | 0 <= i < |tokens| ensures tokens[i] == all[i] {}
    if rest != [] { assert all[|tokens|] == rest[0]; } else { assert all[|tokens|] == Eof; }
    ExprRead(all, 0, e, 0);
  }

  /** Evaluating a printed expression yields its meaning, however it is spaced and whatever
      readable text follows it, as long as that text neither extends the last number nor
      begins with an operator. */
  lemma {:induction false} EvaluatePrintedThenMore(e: Expr, gaps: seq<string>, more: string)
    requires |gaps| == |WrittenExpr(e)| + 1 && Spacing(gaps) && Boundary(more)
    requires Lex(more, false).Tokens?
    requires !IsAdditive(Lex(more, false).tokens, 0) && !IsMultiplicative(Lex(more, false).tokens, 0)
    ensures Evaluated(Printed(e, gaps) + more) == ResultOf(ExprMeaning(e, 0))
  {
    ExprReads(e);
    LexRender(WrittenExpr(e), gaps, more, true);
    assert Tokenized(Printed(e, gaps) + more) == Tokens(ExprTokens(e) + Lex(more, false).tokens + [Eof]);
    ExprThenMore(e, Lex(more, false).tokens);
  }

  /** Round trip: the text of an expression evaluates to exactly its meaning, including which
      error is reported. */
  lemma {:induction false} EvaluatePrinted(e: Expr, gaps: seq<string>)
    requires |gaps| == |WrittenExpr(e)| + 1 && Spacing(gaps)
    ensures Evaluated(Printed(e, gaps)) == ResultOf(ExprMeaning(e, 0))
  {
    assert Printed(e, gaps) + "" == Printed(e, gaps);
    EvaluatePrintedThenMore(e, gaps, "");
  }

  /** A value is only ever returned for a text whose tokens start with an expression of that
      value, and every such text gets it. */
  lemma EvaluateExact(text: string, value: real)
    ensures Evaluated(text) == Ok(value) <==>
            Tokenized(text).Tokens? &&
            exists e, end :: Derives(Tokenized(text).tokens, 0, end, e) && ExprMeaning(e, 0) == Means(value)
  {
    if Tokenized(text).Tokens? {
      var ts := Tokenized(text).tokens;
      if Evaluated(text) == Ok(value) {
        var end := Expression(ts, 0, 0).pos;
        ParserExact(ts, 0, 0, value, end);
      }
      forall e, end | Derives(ts, 0, end, e) && ExprMeaning(e, 0) == Means(value)
        ensures Evaluated(text) == Ok(value)
      {
        ParserExact(ts, 0, 0, value, end);
      }
    }
  }

  /** The same over the text: it is evaluated to a value exactly if it is some written tokens, spaced in
      any way, that begin with an expression of that value. It is refused as unreadable exactly if
      some character is bad, with the error of the first such. */
  lemma EvaluateTextExact(text: string, value: real)
    ensures Evaluated(text) == Ok(value) <==>
            exists ws, gaps, e, end ::
              && Writes(text, ws, gaps) && Derives(Inserted(ws, true) + [Eof], 0, end, e)
              && ExprMeaning(e, 0) == Means(value)
    ensures forall x :: Evaluated(text) == Err(InvalidExpression(x)) <==>
              exists i: nat :: FirstBad(text, i) && x == ErrorAt(text[i])
  {
    EvaluateExact(text, value);
    RefusedAtFirstBad(text);
    if Tokenized(text).Tokens? {
      var ws, gaps := WrittenOfLex(text, true);
      forall ws', gaps' | Writes(text, ws', gaps') ensures Inserted(ws', true) + [Eof] == Tokenized(text).tokens {
        LexOfWritten(text, ws', gaps', true);
      }
    } else {
      forall ws, gaps ensures !Writes(text, ws, gaps) {
        if Writes(text, ws, gaps) { LexOfWritten(text, ws, gaps, true); }
      }
    }
  }

  lemma LastMarkerOnly(ts: seq<Token>, i: nat)
    requires ts != [] && Eof !in ts[..|ts| - 1] && i < |ts| && ts[i] == Eof
    ensures i == |ts| - 1
  {
    var before := ts[..|ts| - 1];
    assert forall k :: 0 <= k < |before| ==> before[k] == ts[k] && before[k] in before;
  }

  lemma {:induction false} ReadsWhole(ts: seq<Token>, e: Expr, value: real)
    requires ts == ExprTokens(e) + [Eof] && ExprMeaning(e, 0) == Means(value)
    ensures Expression(ts, 0, 0) == Value(value, |ts| - 1)
  {
    forall i | 0 <= i < |ExprTokens(e)| ensures ts[i] == ExprTokens(e)[i] {}
    ExprRead(ts, 0, e, 0);
  }

  lemma WholeIsRead(ts: seq<Token>) returns (e: Expr)
    requires ts != [] && Expression(ts, 0, 0).Value? && Expression(ts, 0, 0).pos == |ts| - 1 && ts[|ts| - 1] == Eof
    ensures ts == ExprTokens(e) + [Eof] && ExprMeaning(e, 0) == Means(Expression(ts, 0, 0).value)
  {
    e := ExprSound(ts, 0, 0);
  }

  /** The tokens are an expression of that value from end to end. */
  ghost predicate IsWhole(ts: seq<Token>, value: real) {
    exists e :: ts == ExprTokens(e) + [Eof] && ExprMeaning(e, 0) == Means(value)
  }

  /** Of the tokens of a text, the parser stopped at the end marker exactly if they are an
      expression as a whole. */
  ghost predicate StopsAtEndIffWhole(ts: seq<Token>, r: Parsed) {
    r.Value? ==> r.pos < |ts| && (ts[r.pos] == Eof <==> IsWhole(ts, r.value))
  }

  lemma {:induction false} WholeIff(ts: seq<Token>)
    requires ts != [] && ts[|ts| - 1] == Eof && Eof !in ts[..|ts| - 1]
    ensures StopsAtEndIffWhole(ts, Expression(ts, 0, 0))
  {
    var r := Expression(ts, 0, 0);
    if r.Value? {
      ParserStopsBeforeEof(ts, 0, 0, |ts| - 1);
      if ts[r.pos] == Eof {
        LastMarkerOnly(ts, r.pos);
        var e := WholeIsRead(ts);
      }
      forall e | ts == ExprTokens(e) + [Eof] && ExprMeaning(e, 0) == Means(r.value) ensures ts[r.pos] == Eof {
        ReadsWhole(ts, e, r.value);
      }
    }
  }

  lemma AcceptedTokens(text: string)
    requires Evaluated(text).Ok?
    ensures Tokenized(text).Tokens? && Expression(Tokenized(text).tokens, 0, 0).Value?
    ensures Expression(Tokenized(text).tokens, 0, 0).value == Evaluated(text).value
  {
  }

  /** An accepted text is an expression from end to end exactly if the parser stopped at the end
      marker: what it ignores is what lies between the two. */
  lemma AcceptedWholeIff(text: string)
    requires Evaluated(text).Ok?
    ensures Tokenized(text).Tokens? && Expression(Tokenized(text).tokens, 0, 0).Value?
    ensures var ts := Tokenized(text).tokens;
            var end := Expression(ts, 0, 0).pos;
            end < |ts| && (ts[end] == Eof <==> IsWhole(ts, Evaluated(text).value))
  {
    AcceptedTokens(text);
    TokenizedEnds(text);
    WholeIff(Tokenized(text).tokens);
  }

  lemma LexRightOperand()
    ensures Lex(" 2)", false) == Tokens([Number("2"), RightParen])
  {
    assert " 2)"[1..] == "2)" && "2)"[1..] == ")" && ")"[1..] == "" && "2)"[..1] == "2";
    assert NumberLength("2)", false) == 1;
    assert Lex(")", false) == Tokens([RightParen]);
  }

  const ONE: Expr := Single(Just(Num("1")))

  lemma PrintedOne(gaps: seq<string>)
    requires gaps == ["", ""]
    ensures |gaps| == |WrittenExpr(ONE)| + 1 && Printed(ONE, gaps) == "1"
    ensures ExprMeaning(ONE, 0) == Means(LiteralValue("1"))
  {
    assert WrittenExpr(ONE) == [Number("1")] && [Number("1")][1..] == [] && gaps[1..] == [""];
    assert Render([], [""]) == "";
  }

  lemma OneThenMore(gaps: seq<string>)
    requires gaps == ["", ""] && |gaps| == |WrittenExpr(ONE)| + 1
    ensures Evaluated(Printed(ONE, gaps) + " 2)") == ResultOf(ExprMeaning(ONE, 0))
  {
    LexRightOperand();
    EvaluatePrintedThenMore(ONE, gaps, " 2)");
  }

  /** Text behind the parsed expression is not rejected: `1 2)` evaluates like `1`. */
  lemma TrailingInputIgnored()
    ensures Evaluated("1 2)") == Evaluated("1") == Ok(LiteralValue("1"))
  {
    var gaps := ["", ""];
    PrintedOne(gaps);
    EvaluatePrinted(ONE, gaps);
    OneThenMore(gaps);
    assert "1" + " 2)" == "1 2)";
  }

  // ---------- when evaluation succeeds ----------

  /** How many parentheses deep the expression goes. */
  function ExprNesting(e: Expr): nat {
    match e
    case Single(t) => TermNesting(t)
    case Negated(t) => TermNesting(t)
    case Add(l, r) => Max(ExprNesting(l), TermNesting(r))
    case Subtract(l, r) => Max(ExprNesting(l), TermNesting(r))
  }

  function TermNesting(t: Term): nat {
    match t
    case Just(f) => FactorNesting(f)
    case Times(l, r) => Max(TermNesting(l), FactorNesting(r))
    case Over(l, r) => Max(TermNesting(l), FactorNesting(r))
  }

  function FactorNesting(f: Factor): nat {
    match f
    case Num(_) => 0
    case Parens(e) => 1 + ExprNesting(e)
  }

  /** The arithmetic value, none as soon as some divisor is zero; no depth limit. */
  function ExprValue(e: Expr): Option<real> {
    match e
    case Single(t) => TermValue(t)
    case Negated(t) => var v := TermValue(t); if v.None? then v else Some(-v.value)
    case Add(l, r) =>
      var a, b := ExprValue(l), TermValue(r);
      if a.None? || b.None? then None else Some(a.value + b.value)
    case Subtract(l, r) =>
      var a, b := ExprValue(l), TermValue(r);
      if a.None? || b.None? then None else Some(a.value - b.value)
  }

  function Multiplied(a: Option<real>, b: Option<real>): Option<real> {
    if a.None? || b.None? then None else Some(a.value * b.value)
  }

  function DividedBy(a: Option<real>, b: Option<real>): Option<real> {
    if a.None? || b.None? || b.value == 0.0 then None else Some(a.value / b.value)
  }

  function TermValue(t: Term): Option<real> {
    match t
    case Just(f) => FactorValue(f)
    case Times(l, r) => Multiplied(TermValue(l), FactorValue(r))
    case Over(l, r) => DividedBy(TermValue(l), FactorValue(r))
  }

  function FactorValue(f: Factor): Option<real> {
    match f
    case Num(v) => Some(LiteralValue(v))
    case Parens(e) => ExprValue(e)
  }

  /** `m` is the value if there is one and the nesting stays within the limit, else an error. */
  predicate Agrees(m: Meaning, nesting: nat, v: Option<real>) {
    match m
    case Means(x) => nesting <= 16 && v.Some? && v.value == x
    case Fails(TooDeep) => nesting > 16
    case Fails(DivisionByZero) => v == None
    case Fails(_) => false
  }

  lemma {:induction false} ExprAgrees(e: Expr, depth: nat)
    requires depth <= MAX_NESTING_DEPTH
    ensures Agrees(ExprMeaning(e, depth), depth + ExprNesting(e), ExprValue(e))
    decreases e, 2
  {
    match e
    case Single(t) => TermAgrees(t, depth);
    case Negated(t) => TermAgrees(t, depth);
    case Add(l, r) => ExprAgrees(l, depth); TermAgrees(r, depth);
    case Subtract(l, r) => ExprAgrees(l, depth); TermAgrees(r, depth);
  }

  lemma CombinedAgrees(op: Token, m: Meaning, n: Meaning, x: nat, y: nat, v: Option<real>, w: Option<real>)
    requires Agrees(m, x, v) && Agrees(n, y, w)
    ensures Agrees(if m.Fails? then m else if n.Fails? then n else Combined(op, m.value, n.value), Max(x, y),
                   if op == Multiply then Multiplied(v, w) else DividedBy(v, w))
  {
    if m.Means? && n.Means? { assert v == Some(m.value) && w == Some(n.value); }
  }

  lemma {:induction false} TermAgrees(t: Term, depth: nat)
    requires depth <= MAX_NESTING_DEPTH
    ensures Agrees(TermMeaning(t, depth), depth + TermNesting(t), TermValue(t))
    decreases t, 1
  {
    match t
    case Just(f) => FactorAgrees(f, depth);
    case Times(l, r) =>
      TermAgrees(l, depth);
      FactorAgrees(r, depth);
      CombinedAgrees(Multiply, TermMeaning(l, depth), FactorMeaning(r, depth), depth + TermNesting(l),
                     depth + FactorNesting(r), TermValue(l), FactorValue(r));
    case Over(l, r) =>
      TermAgrees(l, depth);
      FactorAgrees(r, depth);
      CombinedAgrees(Divide, TermMeaning(l, depth), FactorMeaning(r, depth), depth + TermNesting(l),
                     depth + FactorNesting(r), TermValue(l), FactorValue(r));
  }

  lemma {:induction false} FactorAgrees(f: Factor, depth: nat)
    requires depth <= MAX_NESTING_DEPTH
    ensures Agrees(FactorMeaning(f, depth), depth + FactorNesting(f), FactorValue(f))
    decreases f, 0
  {
    if f.Parens? {
      if depth < MAX_NESTING_DEPTH {
        ExprAgrees(f.expr, depth + 1);
      } else {
        assert ExprMeaning(f.expr, depth + 1) == Fails(TooDeep);
      }
    }
  }

  // ---------- arithmetic trees ----------

  datatype Operation = Plus2 | Minus2 | Times2 | Over2

  datatype Tree = Leaf(literal: Literal) | Negate(operand: Tree) | Node(op: Operation, left: Tree, right: Tree)

  function TreeValue(t: Tree): Option<real> {
    match t
    case Leaf(v) => Some(LiteralValue(v))
    case Negate(x) => var v := TreeValue(x); if v.None? then v else Some(-v.value)
    case Node(op, l, r) =>
      var a, b := TreeValue(l), TreeValue(r);
      if a.None? || b.None? then None
      else match op
        case Plus2 => Some(a.value + b.value)
        case Minus2 => Some(a.value - b.value)
        case Times2 => Multiplied(a, b)
        case Over2 => DividedBy(a, b)
  }

  /** The tree with parentheses exactly where precedence and associativity call for them. */
  function ToExpr(t: Tree): Expr
    decreases t, 2
  {
    match t
    case Node(Plus2, l, r) => Add(ToExpr(l), ToTerm(r))
    case Node(Minus2, l, r) => Subtract(ToExpr(l), ToTerm(r))
    case Negate(x) => Negated(ToTerm(x))
    case Leaf(v) => Single(Just(Num(v)))
    case Node(Times2, l, r) => Single(Times(ToTerm(l), ToFactor(r)))
    case Node(Over2, l, r) => Single(Over(ToTerm(l), ToFactor(r)))
  }

  function ToTerm(t: Tree): Term
    decreases t, 4
  {
    match t
    case Node(Times2, l, r) => Times(ToTerm(l), ToFactor(r))
    case Node(Over2, l, r) => Over(ToTerm(l), ToFactor(r))
    case _ => Just(ToFactor(t))
  }

  function ToFactor(t: Tree): Factor
    decreases t, 3
  {
    if t.Leaf? then Num(t.literal) else Parens(ToExpr(t))
  }

  lemma {:induction false} TreeKeepsValue(t: Tree)
    ensures ExprValue(ToExpr(t)) == TermValue(ToTerm(t)) == FactorValue(ToFactor(t)) == TreeValue(t)
  {
    match t
    case Leaf(v) =>
    case Negate(x) => TreeKeepsValue(x);
    case Node(op, l, r) => TreeKeepsValue(l); TreeKeepsValue(r);
  }

  /** Every arithmetic tree printed with correct parentheses and any spacing evaluates to its
      value, and it does so exactly when its parentheses nest at most 16 deep and no divisor in
      it is zero. */
  lemma {:induction false} TreeRoundTrip(t: Tree, gaps: seq<string>, value: real)
    requires |gaps| == |WrittenExpr(ToExpr(t))| + 1 && Spacing(gaps)
    ensures Evaluated(Printed(ToExpr(t), gaps)) == Ok(value) <==>
            ExprNesting(ToExpr(t)) <= 16 && TreeValue(t) == Some(value)
  {
    EvaluatePrinted(ToExpr(t), gaps);
    ExprAgrees(ToExpr(t), 0);
    TreeKeepsValue(t);
  }
}
