/** The calculator's recursive-descent evaluator, with the reals in place of floating point. */
module CalculatorParser {
  import opened CalculatorLexer
  import opened Numbers

  const MAX_NESTING_DEPTH: nat := 16

  datatype EvalError =
    | TooDeep
    | DivisionByZero
    | UnexpectedEnd
    | UnexpectedClosingParen
    | UnexpectedToken(token: Token)
    | MissingClosingParen

  // ---------- number literals ----------

  function DigitValue(c: char): nat
    requires IsDigit(c)
  {
    (c - '0') as nat
  }

  /** `n` with that many zeros written behind it. */
  function WithZeros(n: nat, zeros: nat): (r: nat)
    ensures 0 < n ==> 0 < r
  {
    if zeros == 0 then n else 10 * WithZeros(n, zeros - 1)
  }

  /** Mantissa and number of decimals of the literal tail `s` after `mantissa` and `decimals`. */
  function Decimal(s: string, mantissa: nat, decimals: nat, seen: bool): (nat, nat)
    requires LiteralTail(s, seen)
  {
    if s == [] then (mantissa, decimals)
    else if IsDigit(s[0]) then
      Decimal(s[1..], 10 * mantissa + DigitValue(s[0]), if seen then decimals + 1 else decimals, seen)
    else Decimal(s[1..], mantissa, decimals, true)
  }

  /** `mantissa` with its decimal point `decimals` places from the right. */
  function Fraction(mantissa: nat, decimals: nat): real {
    mantissa as real / WithZeros(1, decimals) as real
  }

  function LiteralValue(v: Literal): real {
    var d := Decimal(v, 0, 0, false);
    Fraction(d.0, d.1)
  }

  datatype Meaning = Means(value: real) | Fails(error: EvalError)

  function Combined(op: Token, a: real, b: real): Meaning {
    if op == Multiply then Means(a * b)
    else if b == 0.0 then Fails(DivisionByZero)
    else Means(a / b)
  }

  /** The number a string of digits denotes, by place value. */
  function WholeValue(s: string): nat
    requires AllDigits(s)
  {
    if s == [] then 0
    else
      assert s[0] in s && forall c :: c in s[1..] ==> c in s;
      WithZeros(DigitValue(s[0]), |s| - 1) + WholeValue(s[1..])
  }

  /** The digits on both sides of a decimal point as one number. */
  function PlaceValue(whole: string, decimals: string): nat
    requires AllDigits(whole) && AllDigits(decimals)
  {
    WithZeros(WholeValue(whole), |decimals|) + WholeValue(decimals)
  }

  lemma {:induction false} DigitsLiteral(s: string, seen: bool, rest: string)
    requires AllDigits(s) && LiteralTail(rest, seen)
    ensures LiteralTail(s + rest, seen)
  {
    if s == [] {
      assert s + rest == rest;
    } else {
      assert s[0] in s && (s + rest)[1..] == s[1..] + rest;
      DigitsLiteral(s[1..], seen, rest);
    }
  }

  lemma {:induction false} ZerosBehindDigit(mantissa: nat, digit: nat, zeros: nat)
    ensures WithZeros(10 * mantissa + digit, zeros) == WithZeros(mantissa, zeros + 1) + WithZeros(digit, zeros)
  {
    if zeros > 0 { ZerosBehindDigit(mantissa, digit, zeros - 1); }
  }

  /** Reading one digit into the mantissa leaves the number the whole text denotes. */
  lemma {:induction false} DigitMovesIn(s: string, mantissa: nat)
    requires AllDigits(s) && s != []
    ensures IsDigit(s[0]) && AllDigits(s[1..])
    ensures WithZeros(10 * mantissa + DigitValue(s[0]), |s| - 1) + WholeValue(s[1..]) ==
            WithZeros(mantissa, |s|) + WholeValue(s)
  {
    assert s[0] in s && forall c :: c in s[1..] ==> c in s;
    ZerosBehindDigit(mantissa, DigitValue(s[0]), |s| - 1);
  }

  lemma {:induction false} DigitsDecimal(s: string, mantissa: nat, decimals: nat, seen: bool, rest: string)
    requires AllDigits(s) && LiteralTail(rest, seen)
    ensures LiteralTail(s + rest, seen)
    ensures Decimal(s + rest, mantissa, decimals, seen) ==
            Decimal(rest, WithZeros(mantissa, |s|) + WholeValue(s), if seen then decimals + |s| else decimals, seen)
  {
    DigitsLiteral(s, seen, rest);
    if s == [] {
      assert s + rest == rest;
    } else {
      assert s[0] in s && (s + rest)[1..] == s[1..] + rest;
      DigitsDecimal(s[1..], 10 * mantissa + DigitValue(s[0]), if seen then decimals + 1 else decimals, seen, rest);
      DigitMovesIn(s, mantissa);
    }
  }

  lemma {:induction false} ZeroStaysZero(zeros: nat)
    ensures WithZeros(0, zeros) == 0
  {
    if zeros > 0 { ZeroStaysZero(zeros - 1); }
  }

  lemma {:induction false} WholePart(whole: string, rest: string)
    requires AllDigits(whole) && LiteralTail(rest, false)
    ensures LiteralTail(whole + rest, false)
    ensures Decimal(whole + rest, 0, 0, false) == Decimal(rest, WholeValue(whole), 0, false)
  {
    ZeroStaysZero(|whole|);
    DigitsDecimal(whole, 0, 0, false, rest);
  }

  lemma {:induction false} DecimalPart(decimals: string, mantissa: nat)
    requires AllDigits(decimals)
    ensures LiteralTail("." + decimals, false)
    ensures Decimal("." + decimals, mantissa, 0, false) ==
            (WithZeros(mantissa, |decimals|) + WholeValue(decimals), |decimals|)
  {
    assert ("." + decimals)[1..] == decimals;
    DecimalsOnly(decimals, mantissa);
  }

  lemma {:induction false} DecimalOfParts(whole: string, decimals: string)
    requires AllDigits(whole) && AllDigits(decimals)
    ensures LiteralTail(whole + ("." + decimals), false)
    ensures Decimal(whole + ("." + decimals), 0, 0, false) == (PlaceValue(whole, decimals), |decimals|)
  {
    DecimalPart(decimals, WholeValue(whole));
    WholePart(whole, "." + decimals);
  }

  lemma {:induction false} DecimalsOnly(decimals: string, mantissa: nat)
    requires AllDigits(decimals)
    ensures LiteralTail(decimals, true)
    ensures Decimal(decimals, mantissa, 0, true) == (WithZeros(mantissa, |decimals|) + WholeValue(decimals), |decimals|)
  {
    assert decimals + "" == decimals;
    DigitsDecimal(decimals, mantissa, 0, true, "");
  }

  /** A literal denotes its whole digits plus its decimals at their place value. */
  lemma LiteralPlaceValue(whole: string, decimals: string)
    requires AllDigits(whole) && AllDigits(decimals) && IsLiteral(whole + ("." + decimals))
    ensures LiteralValue(whole + ("." + decimals)) == Fraction(PlaceValue(whole, decimals), |decimals|)
  {
    DecimalOfParts(whole, decimals);
    ValueOfDecimal(whole + ("." + decimals), PlaceValue(whole, decimals), |decimals|);
  }

  lemma {:induction false} ValueOfDecimal(v: Literal, mantissa: nat, decimals: nat)
    requires Decimal(v, 0, 0, false) == (mantissa, decimals)
    ensures LiteralValue(v) == Fraction(mantissa, decimals)
  {
  }

  lemma {:induction false} WholeLiteralValue(whole: string)
    requires AllDigits(whole) && whole != []
    ensures IsLiteral(whole) && LiteralValue(whole) == WholeValue(whole) as real
  {
    assert whole[0] in whole && whole + "" == whole;
    WholePart(whole, "");
  }

  // ---------- the three parsing functions ----------

  datatype Parsed = Value(value: real, pos: nat) | Error(error: EvalError)

  ghost predicate Advances(r: Parsed, pos: nat, tokens: seq<Token>) {
    r.Value? ==> pos < r.pos <= |tokens|
  }

  predicate IsAdditive(tokens: seq<Token>, pos: nat) {
    pos < |tokens| && (tokens[pos] == Plus || tokens[pos] == Minus)
  }

  predicate IsMultiplicative(tokens: seq<Token>, pos: nat) {
    pos < |tokens| && (tokens[pos] == Multiply || tokens[pos] == Divide)
  }

  function Expression(tokens: seq<Token>, pos: nat, depth: nat): (r: Parsed)
    requires pos <= |tokens|
    ensures Advances(r, pos, tokens)
    decreases |tokens| - pos, 2
  {
    if depth > MAX_NESTING_DEPTH then Error(TooDeep)
    else match TermOf(tokens, pos, depth)
      case Error(e) => Error(e)
      case Value(v, p) => ExpressionLoop(tokens, v, p, depth)
  }

  /** The additive loop of an expression from the accumulated `acc` on. */
  function ExpressionLoop(tokens: seq<Token>, acc: real, pos: nat, depth: nat): (r: Parsed)
    requires pos <= |tokens|
    ensures r.Value? ==> pos <= r.pos <= |tokens|
    decreases |tokens| - pos, 2
  {
    if !IsAdditive(tokens, pos) then Value(acc, pos)
    else match TermOf(tokens, pos + 1, depth)
      case Error(e) => Error(e)
      case Value(v, p) => ExpressionLoop(tokens, if tokens[pos] == Plus then acc + v else acc - v, p, depth)
  }

  function TermOf(tokens: seq<Token>, pos: nat, depth: nat): (r: Parsed)
    requires pos <= |tokens|
    ensures Advances(r, pos, tokens)
    decreases |tokens| - pos, 1
  {
    match FactorOf(tokens, pos, depth)
    case Error(e) => Error(e)
    case Value(v, p) => TermLoop(tokens, v, p, depth)
  }

  function TermLoop(tokens: seq<Token>, acc: real, pos: nat, depth: nat): (r: Parsed)
    requires pos <= |tokens|
    ensures r.Value? ==> pos <= r.pos <= |tokens|
    decreases |tokens| - pos, 1
  {
    if !IsMultiplicative(tokens, pos) then Value(acc, pos)
    else match FactorOf(tokens, pos + 1, depth)
      case Error(e) => Error(e)
      case Value(v, p) =>
        match Combined(tokens[pos], acc, v)
        case Fails(e) => Error(e)
        case Means(result) => TermLoop(tokens, result, p, depth)
  }

  function FactorOf(tokens: seq<Token>, pos: nat, depth: nat): (r: Parsed)
    requires pos <= |tokens|
    ensures Advances(r, pos, tokens)
    decreases |tokens| - pos, 0
  {
    if pos >= |tokens| then Error(UnexpectedEnd)
    else match tokens[pos]
      case Number(v) => Value(LiteralValue(v), pos + 1)
      case LeftParen =>
        (match Expression(tokens, pos + 1, depth + 1)
         case Error(e) => Error(e)
         case Value(v, p) =>
           if p >= |tokens| || tokens[p] != RightParen then Error(MissingClosingParen) else Value(v, p + 1))
      case RightParen => Error(UnexpectedClosingParen)
      case Eof => Error(UnexpectedEnd)
      case t => Error(UnexpectedToken(t))
  }

  // ---------- the evaluator as it runs ----------

  method ParseExpression(tokens: seq<Token>, start: nat, depth: nat) returns (r: Parsed)
    requires start <= |tokens|
    ensures r == Expression(tokens, start, depth)
    decreases |tokens| - start, 2
  {
    if depth > MAX_NESTING_DEPTH {
      return Error(TooDeep);
    }
    var first := ParseTerm(tokens, start, depth);
    if first.Error? {
      return first;
    }
    var result, pos := first.value, first.pos;
    while pos < |tokens| && (tokens[pos] == Plus || tokens[pos] == Minus)
      invariant start < pos <= |tokens|
      invariant Expression(tokens, start, depth) == ExpressionLoop(tokens, result, pos, depth)
      decreases |tokens| - pos
    {
      var op := tokens[pos];
      var right := ParseTerm(tokens, pos + 1, depth);
      if right.Error? {
        return right;
      }
      if op == Plus {
        result := result + right.value;
      } else {
        result := result - right.value;
      }
      pos := right.pos;
    }
    r := Value(result, pos);
  }

  /** One multiplication or division; only a zero divisor is refused. */
  method CombineFactors(op: Token, a: real, b: real) returns (m: Meaning)
    requires op == Multiply || op == Divide
    ensures m == Combined(op, a, b)
  {
    if op == Multiply {
      m := Means(a * b);
    } else {
      if b == 0.0 {
        return Fails(DivisionByZero);
      }
      m := Means(a / b);
    }
  }

  method ParseTerm(tokens: seq<Token>, start: nat, depth: nat) returns (r: Parsed)
    requires start <= |tokens|
    ensures r == TermOf(tokens, start, depth)
    decreases |tokens| - start, 1
  {
    var first := ParseFactor(tokens, start, depth);
    if first.Error? {
      return first;
    }
    var result, pos := first.value, first.pos;
    while pos < |tokens| && (tokens[pos] == Multiply || tokens[pos] == Divide)
      invariant start < pos <= |tokens|
      invariant TermOf(tokens, start, depth) == TermLoop(tokens, result, pos, depth)
      decreases |tokens| - pos
    {
      var op := tokens[pos];
      var right := ParseFactor(tokens, pos + 1, depth);
      if right.Error? {
        return right;
      }
      var combined := CombineFactors(op, result, right.value);
      if combined.Fails? {
        return Error(combined.error);
      }
      result := combined.value;
      pos := right.pos;
    }
    r := Value(result, pos);
  }

  method ParseFactor(tokens: seq<Token>, pos: nat, depth: nat) returns (r: Parsed)
    requires pos <= |tokens|
    ensures r == FactorOf(tokens, pos, depth)
    decreases |tokens| - pos, 0
  {
    if pos >= |tokens| {
      return Error(UnexpectedEnd);
    }
    match tokens[pos] {
      case Number(v) => r := Value(LiteralValue(v), pos + 1);
      case LeftParen =>
        var inner := ParseExpression(tokens, pos + 1, depth + 1);
        if inner.Error? {
          return inner;
        }
        if inner.pos >= |tokens| || tokens[inner.pos] != RightParen {
          return Error(MissingClosingParen);
        }
        r := Value(inner.value, inner.pos + 1);
      case RightParen => r := Error(UnexpectedClosingParen);
      case Eof => r := Error(UnexpectedEnd);
      case t => r := Error(UnexpectedToken(t));
    }
  }

  // ---------- the grammar and its meaning ----------

  /** Expressions lean left; a leading minus negates the first term. */
  datatype Expr =
    | Single(term: Term)
    | Negated(term: Term)
    | Add(left: Expr, right: Term)
    | Subtract(left: Expr, right: Term)

  datatype Term =
    | Just(factor: Factor)
    | Times(left: Term, right: Factor)
    | Over(left: Term, right: Factor)

  datatype Factor = Num(literal: Literal) | Parens(expr: Expr)

  /** The tokens an expression is read as; the zero of a leading minus is one of them. */
  function ExprTokens(e: Expr): seq<Token> {
    match e
    case Single(t) => TermTokens(t)
    case Negated(t) => [Number("0"), Minus] + TermTokens(t)
    case Add(l, r) => ExprTokens(l) + [Plus] + TermTokens(r)
    case Subtract(l, r) => ExprTokens(l) + [Minus] + TermTokens(r)
  }

  function TermTokens(t: Term): seq<Token> {
    match t
    case Just(f) => FactorTokens(f)
    case Times(l, r) => TermTokens(l) + [Multiply] + FactorTokens(r)
    case Over(l, r) => TermTokens(l) + [Divide] + FactorTokens(r)
  }

  function FactorTokens(f: Factor): seq<Token> {
    match f
    case Num(v) => [Number(v)]
    case Parens(e) => [LeftParen] + ExprTokens(e) + [RightParen]
  }

  /** Value of an expression inside `depth` parentheses, or the first thing that goes wrong
      from left to right. */
  function ExprMeaning(e: Expr, depth: nat): Meaning {
    if depth > MAX_NESTING_DEPTH then Fails(TooDeep)
    else match e
      case Single(t) => TermMeaning(t, depth)
      case Negated(t) =>
        var m := TermMeaning(t, depth);
        if m.Means? then Means(0.0 - m.value) else m
      case Add(l, r) =>
        var a := ExprMeaning(l, depth);
        if a.Fails? then a else
        var b := TermMeaning(r, depth);
        if b.Fails? then b else Means(a.value + b.value)
      case Subtract(l, r) =>
        var a := ExprMeaning(l, depth);
        if a.Fails? then a else
        var b := TermMeaning(r, depth);
        if b.Fails? then b else Means(a.value - b.value)
  }

  function TermMeaning(t: Term, depth: nat): Meaning {
    match t
    case Just(f) => FactorMeaning(f, depth)
    case Times(l, r) =>
      var a := TermMeaning(l, depth);
      if a.Fails? then a else
      var b := FactorMeaning(r, depth);
      if b.Fails? then b else Combined(Multiply, a.value, b.value)
    case Over(l, r) =>
      var a := TermMeaning(l, depth);
      if a.Fails? then a else
      var b := FactorMeaning(r, depth);
      if b.Fails? then b else Combined(Divide, a.value, b.value)
  }

  function FactorMeaning(f: Factor, depth: nat): Meaning {
    match f
    case Num(v) => Means(LiteralValue(v))
    case Parens(e) => ExprMeaning(e, depth + 1)
  }

  // ---------- completeness: what is derivable is read with its meaning ----------

  /** `part` stands in `tokens` from `pos` on. */
  ghost predicate At(tokens: seq<Token>, pos: nat, part: seq<Token>) {
    pos + |part| <= |tokens| && forall i :: 0 <= i < |part| ==> part[i] == tokens[pos + i]
  }

  lemma AtSplit(tokens: seq<Token>, pos: nat, a: seq<Token>, op: Token, b: seq<Token>)
    requires At(tokens, pos, a + [op] + b)
    ensures At(tokens, pos, a) && tokens[pos + |a|] == op && At(tokens, pos + |a| + 1, b)
  {
    var whole := a + [op] + b;
    assert whole[|a|] == op;
    assert forall i :: 0 <= i < |a| ==> a[i] == whole[i];
    assert forall i :: 0 <= i < |b| ==> b[i] == whole[|a| + 1 + i];
  }

  /** Reading a factor yields its meaning and stops right behind it. */
  lemma {:induction false} FactorRead(tokens: seq<Token>, pos: nat, f: Factor, depth: nat)
    requires At(tokens, pos, FactorTokens(f)) && depth <= MAX_NESTING_DEPTH
    ensures FactorOf(tokens, pos, depth) ==
            match FactorMeaning(f, depth)
            case Fails(e) => Error(e)
            case Means(v) => Value(v, pos + |FactorTokens(f)|)
    decreases f, 0
  {
    match f
    case Num(v) =>
      assert FactorTokens(f)[0] == Number(v);
    case Parens(e) =>
      assert [LeftParen] + ExprTokens(e) + [RightParen] == [] + [LeftParen] + (ExprTokens(e) + [RightParen] + []);
      AtSplit(tokens, pos, [], LeftParen, ExprTokens(e) + [RightParen] + []);
      AtSplit(tokens, pos + 1, ExprTokens(e), RightParen, []);
      if depth < MAX_NESTING_DEPTH {
        ExprRead(tokens, pos + 1, e, depth + 1);
      }
  }

  /** One round of the multiplicative loop reads an operator and a factor. */
  lemma FactorLoopRead(tokens: seq<Token>, acc: real, pos: nat, f: Factor, depth: nat)
    requires IsMultiplicative(tokens, pos) && At(tokens, pos + 1, FactorTokens(f)) && depth <= MAX_NESTING_DEPTH
    ensures TermLoop(tokens, acc, pos, depth) ==
            match FactorMeaning(f, depth)
            case Fails(e) => Error(e)
            case Means(v) =>
              match Combined(tokens[pos], acc, v)
              case Fails(e) => Error(e)
              case Means(result) => TermLoop(tokens, result, pos + 1 + |FactorTokens(f)|, depth)
    decreases f, 1
  {
    FactorRead(tokens, pos + 1, f, depth);
  }

  function ContinueTerm(tokens: seq<Token>, m: Meaning, pos: nat, depth: nat): Parsed
    requires pos <= |tokens|
  {
    match m
    case Fails(e) => Error(e)
    case Means(v) => TermLoop(tokens, v, pos, depth)
  }

  lemma {:induction false} OneMoreFactor(tokens: seq<Token>, pos: nat, t: Term, depth: nat)
    requires t.Times? || t.Over?
    requires At(tokens, pos, TermTokens(t)) && depth <= MAX_NESTING_DEPTH && pos + |TermTokens(t.left)| <= |tokens|
    ensures ContinueTerm(tokens, TermMeaning(t.left, depth), pos + |TermTokens(t.left)|, depth) ==
            ContinueTerm(tokens, TermMeaning(t, depth), pos + |TermTokens(t)|, depth)
    decreases t, 0
  {
    AtSplit(tokens, pos, TermTokens(t.left), if t.Times? then Multiply else Divide, FactorTokens(t.right));
    var m := TermMeaning(t.left, depth);
    if m.Means? {
      FactorLoopRead(tokens, m.value, pos + |TermTokens(t.left)|, t.right, depth);
    }
  }

  /** Reading from the start of a term amounts to its meaning followed by the rest of the loop. */
  lemma {:induction false} TermRead(tokens: seq<Token>, pos: nat, t: Term, depth: nat)
    requires At(tokens, pos, TermTokens(t)) && depth <= MAX_NESTING_DEPTH
    ensures TermOf(tokens, pos, depth) == ContinueTerm(tokens, TermMeaning(t, depth), pos + |TermTokens(t)|, depth)
    decreases t, 2
  {
    if t.Just? {
      FactorRead(tokens, pos, t.factor, depth);
    } else {
      var l := t.left;
      AtSplit(tokens, pos, TermTokens(l), if t.Times? then Multiply else Divide, FactorTokens(t.right));
      TermRead(tokens, pos, l, depth);
      OneMoreFactor(tokens, pos, t, depth);
    }
  }

  /** A term followed by something that cannot continue it is read to its end. */
  lemma {:induction false} TermReadToEnd(tokens: seq<Token>, pos: nat, t: Term, depth: nat)
    requires At(tokens, pos, TermTokens(t)) && depth <= MAX_NESTING_DEPTH
    requires !IsMultiplicative(tokens, pos + |TermTokens(t)|)
    ensures TermOf(tokens, pos, depth) ==
            match TermMeaning(t, depth)
            case Fails(e) => Error(e)
            case Means(v) => Value(v, pos + |TermTokens(t)|)
    decreases t, 3
  {
    TermRead(tokens, pos, t, depth);
  }

  /** One round of the additive loop reads an operator and a term. */
  lemma LoopRead(tokens: seq<Token>, acc: real, pos: nat, t: Term, depth: nat)
    requires IsAdditive(tokens, pos) && At(tokens, pos + 1, TermTokens(t)) && depth <= MAX_NESTING_DEPTH
    requires !IsMultiplicative(tokens, pos + 1 + |TermTokens(t)|)
    ensures ExpressionLoop(tokens, acc, pos, depth) ==
            match TermMeaning(t, depth)
            case Fails(e) => Error(e)
            case Means(v) => ExpressionLoop(tokens, if tokens[pos] == Plus then acc + v else acc - v,
                                            pos + 1 + |TermTokens(t)|, depth)
    decreases t, 4
  {
    TermReadToEnd(tokens, pos + 1, t, depth);
  }

  lemma {:induction false} NegatedRead(tokens: seq<Token>, pos: nat, t: Term, depth: nat)
    requires At(tokens, pos, ExprTokens(Negated(t))) && depth <= MAX_NESTING_DEPTH
    ensures IsAdditive(tokens, pos + 1) && tokens[pos + 1] == Minus && At(tokens, pos + 2, TermTokens(t))
    ensures Expression(tokens, pos, depth) == ExpressionLoop(tokens, 0.0, pos + 1, depth)
  {
    assert ExprTokens(Negated(t)) == [Number("0")] + [Minus] + TermTokens(t);
    AtSplit(tokens, pos, [Number("0")], Minus, TermTokens(t));
    assert [Number("0")][0] == tokens[pos];
    ZeroLiteral();
    assert FactorOf(tokens, pos, depth) == Value(0.0, pos + 1);
    assert TermLoop(tokens, 0.0, pos + 1, depth) == Value(0.0, pos + 1);
  }

  /** The additive loop entered with what is known so far. */
  function ContinueExpr(tokens: seq<Token>, m: Meaning, pos: nat, depth: nat): Parsed
    requires pos <= |tokens|
  {
    match m
    case Fails(e) => Error(e)
    case Means(v) => ExpressionLoop(tokens, v, pos, depth)
  }

  lemma {:induction false} OneMoreTerm(tokens: seq<Token>, pos: nat, e: Expr, depth: nat)
    requires e.Add? || e.Subtract?
    requires At(tokens, pos, ExprTokens(e)) && depth <= MAX_NESTING_DEPTH
    requires !IsMultiplicative(tokens, pos + |ExprTokens(e)|) && pos + |ExprTokens(e.left)| <= |tokens|
    ensures ContinueExpr(tokens, ExprMeaning(e.left, depth), pos + |ExprTokens(e.left)|, depth) ==
            ContinueExpr(tokens, ExprMeaning(e, depth), pos + |ExprTokens(e)|, depth)
    decreases e, 0
  {
    AtSplit(tokens, pos, ExprTokens(e.left), if e.Add? then Plus else Minus, TermTokens(e.right));
    var m := ExprMeaning(e.left, depth);
    if m.Means? {
      LoopRead(tokens, m.value, pos + |ExprTokens(e.left)|, e.right, depth);
    }
  }

  lemma {:induction false} ExprPrefixRead(tokens: seq<Token>, pos: nat, e: Expr, depth: nat)
    requires At(tokens, pos, ExprTokens(e)) && depth <= MAX_NESTING_DEPTH
    requires !IsMultiplicative(tokens, pos + |ExprTokens(e)|)
    ensures Expression(tokens, pos, depth) == ContinueExpr(tokens, ExprMeaning(e, depth), pos + |ExprTokens(e)|, depth)
    decreases e, 5
  {
    if e.Single? {
      TermReadToEnd(tokens, pos, e.term, depth);
    } else if e.Negated? {
      NegatedRead(tokens, pos, e.term, depth);
      LoopRead(tokens, 0.0, pos + 1, e.term, depth);
    } else {
      AtSplit(tokens, pos, ExprTokens(e.left), if e.Add? then Plus else Minus, TermTokens(e.right));
      ExprPrefixRead(tokens, pos, e.left, depth);
      OneMoreTerm(tokens, pos, e, depth);
    }
  }

  lemma ZeroLiteral()
    ensures LiteralValue("0") == 0.0
  {
    WholeLiteralValue("0");
  }

  /** An expression followed by anything but an operator is read to its end. */
  lemma {:induction false} ExprRead(tokens: seq<Token>, pos: nat, e: Expr, depth: nat)
    requires At(tokens, pos, ExprTokens(e))
    requires !IsMultiplicative(tokens, pos + |ExprTokens(e)|) && !IsAdditive(tokens, pos + |ExprTokens(e)|)
    ensures Expression(tokens, pos, depth) ==
            match ExprMeaning(e, depth)
            case Fails(x) => Error(x)
            case Means(v) => Value(v, pos + |ExprTokens(e)|)
    decreases e, 6
  {
    if depth <= MAX_NESTING_DEPTH {
      ExprPrefixRead(tokens, pos, e, depth);
    }
  }

  // ---------- soundness: whatever is read was derivable ----------

  lemma AtJoin(tokens: seq<Token>, pos: nat, a: seq<Token>, b: seq<Token>)
    requires At(tokens, pos, a) && pos + |a| < |tokens| && At(tokens, pos + |a| + 1, b)
    ensures At(tokens, pos, a + [tokens[pos + |a|]] + b)
  {
  }

  lemma {:induction false} FactorSound(tokens: seq<Token>, pos: nat, depth: nat) returns (f: Factor)
    requires pos <= |tokens| && depth <= MAX_NESTING_DEPTH && FactorOf(tokens, pos, depth).Value?
    ensures var r := FactorOf(tokens, pos, depth);
            At(tokens, pos, FactorTokens(f)) && r.pos == pos + |FactorTokens(f)|
            && FactorMeaning(f, depth) == Means(r.value)
    decreases |tokens| - pos, 0
  {
    if tokens[pos].Number? {
      f := Num(tokens[pos].value);
    } else {
      var e := ExprSound(tokens, pos + 1, depth + 1);
      f := Parens(e);
      AtJoin(tokens, pos, [], ExprTokens(e));
      AtJoin(tokens, pos, [LeftParen] + ExprTokens(e), []);
      assert [] + [LeftParen] + ExprTokens(e) == [LeftParen] + ExprTokens(e);
      assert [LeftParen] + ExprTokens(e) + [RightParen] + [] == FactorTokens(f);
    }
  }

  lemma {:induction false} TermLoopSound(tokens: seq<Token>, start: nat, t0: Term, pos: nat, depth: nat)
    returns (t: Term)
    requires start <= pos <= |tokens| && depth <= MAX_NESTING_DEPTH
    requires At(tokens, start, TermTokens(t0)) && start + |TermTokens(t0)| == pos && TermMeaning(t0, depth).Means?
    requires TermLoop(tokens, TermMeaning(t0, depth).value, pos, depth).Value?
    ensures var r := TermLoop(tokens, TermMeaning(t0, depth).value, pos, depth);
            && At(tokens, start, TermTokens(t)) && r.pos == start + |TermTokens(t)|
            && TermMeaning(t, depth) == Means(r.value) && !IsMultiplicative(tokens, r.pos)
    decreases |tokens| - pos, 1
  {
    if IsMultiplicative(tokens, pos) {
      var f := FactorSound(tokens, pos + 1, depth);
      AtJoin(tokens, start, TermTokens(t0), FactorTokens(f));
      var t1 := if tokens[pos] == Multiply then Times(t0, f) else Over(t0, f);
      var acc := TermMeaning(t0, depth).value;
      var Value(v, next) := FactorOf(tokens, pos + 1, depth);
      assert TermMeaning(t1, depth) == Combined(tokens[pos], acc, v);
      t := TermLoopSound(tokens, start, t1, next, depth);
    } else {
      t := t0;
    }
  }

  lemma {:induction false} TermSound(tokens: seq<Token>, pos: nat, depth: nat) returns (t: Term)
    requires pos <= |tokens| && depth <= MAX_NESTING_DEPTH && TermOf(tokens, pos, depth).Value?
    ensures var r := TermOf(tokens, pos, depth);
            && At(tokens, pos, TermTokens(t)) && r.pos == pos + |TermTokens(t)|
            && TermMeaning(t, depth) == Means(r.value) && !IsMultiplicative(tokens, r.pos)
    decreases |tokens| - pos, 1
  {
    var f := FactorSound(tokens, pos, depth);
    t := TermLoopSound(tokens, pos, Just(f), FactorOf(tokens, pos, depth).pos, depth);
  }

  lemma {:induction false} AppendedMeans(e: Expr, t: Term, depth: nat)
    requires ExprMeaning(e, depth).Means? && TermMeaning(t, depth).Means?
    ensures ExprMeaning(Add(e, t), depth) == Means(ExprMeaning(e, depth).value + TermMeaning(t, depth).value)
    ensures ExprMeaning(Subtract(e, t), depth) == Means(ExprMeaning(e, depth).value - TermMeaning(t, depth).value)
    ensures ExprTokens(Add(e, t)) == ExprTokens(e) + [Plus] + TermTokens(t)
    ensures ExprTokens(Subtract(e, t)) == ExprTokens(e) + [Minus] + TermTokens(t)
  {
  }

  lemma {:induction false} ExprLoopSound(tokens: seq<Token>, start: nat, e0: Expr, pos: nat, depth: nat)
    returns (e: Expr)
    requires start <= pos <= |tokens| && depth <= MAX_NESTING_DEPTH && !IsMultiplicative(tokens, pos)
    requires At(tokens, start, ExprTokens(e0)) && start + |ExprTokens(e0)| == pos && ExprMeaning(e0, depth).Means?
    requires ExpressionLoop(tokens, ExprMeaning(e0, depth).value, pos, depth).Value?
    ensures var r := ExpressionLoop(tokens, ExprMeaning(e0, depth).value, pos, depth);
            && At(tokens, start, ExprTokens(e)) && r.pos == start + |ExprTokens(e)|
            && ExprMeaning(e, depth) == Means(r.value)
            && !IsMultiplicative(tokens, r.pos) && !IsAdditive(tokens, r.pos)
    decreases |tokens| - pos, 2
  {
    if IsAdditive(tokens, pos) {
      var t := TermSound(tokens, pos + 1, depth);
      AtJoin(tokens, start, ExprTokens(e0), TermTokens(t));
      var e1 := if tokens[pos] == Plus then Add(e0, t) else Subtract(e0, t);
      AppendedMeans(e0, t, depth);
      e := ExprLoopSound(tokens, start, e1, TermOf(tokens, pos + 1, depth).pos, depth);
    } else {
      e := e0;
    }
  }

  lemma {:induction false} ExprSound(tokens: seq<Token>, pos: nat, depth: nat) returns (e: Expr)
    requires pos <= |tokens| && Expression(tokens, pos, depth).Value?
    ensures var r := Expression(tokens, pos, depth);
            && At(tokens, pos, ExprTokens(e)) && r.pos == pos + |ExprTokens(e)|
            && ExprMeaning(e, depth) == Means(r.value)
            && !IsMultiplicative(tokens, r.pos) && !IsAdditive(tokens, r.pos)
    decreases |tokens| - pos, 2
  {
    var t := TermSound(tokens, pos, depth);
    e := ExprLoopSound(tokens, pos, Single(t), TermOf(tokens, pos, depth).pos, depth);
  }

  /** `e` is what the tokens from `pos` up to `end` say, and no operator follows. */
  ghost predicate Derives(tokens: seq<Token>, pos: nat, end: nat, e: Expr) {
    && At(tokens, pos, ExprTokens(e)) && end == pos + |ExprTokens(e)|
    && !IsMultiplicative(tokens, end) && !IsAdditive(tokens, end)
  }

  /** The parser on arbitrary tokens: it succeeds with a value and an end position exactly when
      the tokens in between derive an expression of that value, with no operator following. */
  lemma {:induction false} ParserExact(tokens: seq<Token>, pos: nat, depth: nat, value: real, end: nat)
    requires pos <= |tokens|
    ensures Expression(tokens, pos, depth) == Value(value, end) <==>
            exists e :: Derives(tokens, pos, end, e) && ExprMeaning(e, depth) == Means(value)
  {
    if Expression(tokens, pos, depth) == Value(value, end) {
      var e := ExprSound(tokens, pos, depth);
      assert Derives(tokens, pos, end, e);
    }
    forall e | Derives(tokens, pos, end, e) && ExprMeaning(e, depth) == Means(value)
      ensures Expression(tokens, pos, depth) == Value(value, end)
    {
      ExprRead(tokens, pos, e, depth);
    }
  }

  lemma {:induction false} NoEofInside(e: Expr)
    ensures Eof !in ExprTokens(e)
    decreases e, 2
  {
    match e
    case Single(t) => NoEofInTerm(t);
    case Negated(t) => NoEofInTerm(t);
    case Add(l, r) => NoEofInside(l); NoEofInTerm(r);
    case Subtract(l, r) => NoEofInside(l); NoEofInTerm(r);
  }

  lemma {:induction false} NoEofInTerm(t: Term)
    ensures Eof !in TermTokens(t)
    decreases t, 1
  {
    match t
    case Just(f) => NoEofInFactor(f);
    case Times(l, r) => NoEofInTerm(l); NoEofInFactor(r);
    case Over(l, r) => NoEofInTerm(l); NoEofInFactor(r);
  }

  lemma {:induction false} NoEofInFactor(f: Factor)
    ensures Eof !in FactorTokens(f)
    decreases f, 0
  {
    match f
    case Num(v) =>
    case Parens(e) => NoEofInside(e);
  }

  /** Success consumes at least one token and never reaches past an end marker. */
  lemma {:induction false} ParserStopsBeforeEof(tokens: seq<Token>, pos: nat, depth: nat, eof: nat)
    requires pos <= eof < |tokens| && tokens[eof] == Eof
    ensures var r := Expression(tokens, pos, depth); r.Value? ==> pos < r.pos <= eof
  {
    var r := Expression(tokens, pos, depth);
    if r.Value? && r.pos > eof {
      var e := ExprSound(tokens, pos, depth);
      assert ExprTokens(e)[eof - pos] == tokens[eof];
      NoEofInside(e);
    }
  }
}
