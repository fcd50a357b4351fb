/** The calculator's tokenizer. Each character stands for one byte of the expression. */
module CalculatorLexer {
  import opened Numbers
  import opened Wrappers

  /** The white space the tokenizer skips among single bytes. */
  predicate IsSpace(c: char) {
    c in "\t\n\r " || c as int in {0x0B, 0x0C, 0x85, 0xA0}
  }

  predicate AllSpace(s: string) { forall c :: c in s ==> IsSpace(c) }

  /** A digit, or a decimal point directly followed by a digit. */
  predicate StartsNumber(s: string) {
    |s| > 0 && (IsDigit(s[0]) || (s[0] == '.' && |s| > 1 && IsDigit(s[1])))
  }

  /** Digits with at most one decimal point, or none if one was already seen. */
  predicate LiteralTail(s: string, hasDecimal: bool) {
    if s == [] then true
    else if IsDigit(s[0]) then LiteralTail(s[1..], hasDecimal)
    else s[0] == '.' && !hasDecimal && LiteralTail(s[1..], true)
  }

  predicate IsLiteral(s: string) { StartsNumber(s) && LiteralTail(s, false) }

  type Literal = s: string | IsLiteral(s) witness "0"

  datatype Token = Number(value: Literal) | Plus | Minus | Multiply | Divide | LeftParen | RightParen | Eof

  datatype LexError = InvalidDecimalPoint | InvalidCharacter(c: char)

  datatype LexResult = Tokens(tokens: seq<Token>) | Invalid(error: LexError)

  function Prepend(front: seq<Token>, r: LexResult): LexResult {
    match r
    case Tokens(ts) => Tokens(front + ts)
    case Invalid(e) => r
  }

  /** Length of the longest number at the front of `s`. */
  function NumberLength(s: string, hasDecimal: bool): (n: nat)
    ensures n <= |s|
  {
    if s == [] then 0
    else if IsDigit(s[0]) then 1 + NumberLength(s[1..], hasDecimal)
    else if s[0] == '.' && !hasDecimal then 1 + NumberLength(s[1..], true)
    else 0
  }

  lemma {:induction false} NumberIsLiteral(s: string, hasDecimal: bool)
    ensures LiteralTail(s[..NumberLength(s, hasDecimal)], hasDecimal)
  {
    if s != [] && (IsDigit(s[0]) || (s[0] == '.' && !hasDecimal)) {
      var seen := hasDecimal || !IsDigit(s[0]);
      NumberIsLiteral(s[1..], seen);
      assert s[..NumberLength(s, hasDecimal)][1..] == s[1..][..NumberLength(s[1..], seen)];
    }
  }

  lemma {:induction false} NumberStartsNumber(s: string)
    requires StartsNumber(s)
    ensures 0 < NumberLength(s, false) && IsLiteral(s[..NumberLength(s, false)])
  {
    NumberIsLiteral(s, false);
    if !IsDigit(s[0]) {
      assert NumberLength(s[1..], true) >= 1;
    }
  }

  /** A minus with no operand before it, at the start or after '(', gets a zero. */
  function MinusTokens(start: bool): seq<Token> {
    if start then [Number("0"), Minus] else [Minus]
  }

  /** The tokens of an operator or parenthesis; none for any other character. */
  function SymbolTokens(c: char, start: bool): seq<Token> {
    match c
    case '+' => [Plus]
    case '-' => MinusTokens(start)
    case '*' => [Multiply]
    case '/' => [Divide]
    case '(' => [LeftParen]
    case ')' => [RightParen]
    case _ => []
  }

  /** The tokens of `s`, without the final end marker. `start` says that no operand precedes. */
  function Lex(s: string, start: bool): LexResult
    decreases |s|
  {
    if s == [] then Tokens([])
    else if IsSpace(s[0]) then Lex(s[1..], start)
    else if StartsNumber(s) then
      NumberStartsNumber(s);
      var n := NumberLength(s, false);
      Prepend([Number(s[..n])], Lex(s[n..], false))
    else if SymbolTokens(s[0], start) != [] then
      Prepend(SymbolTokens(s[0], start), Lex(s[1..], s[0] == '('))
    else Invalid(if s[0] == '.' then InvalidDecimalPoint else InvalidCharacter(s[0]))
  }

  function Tokenized(s: string): LexResult {
    var r := Lex(s, true);
    if r.Tokens? then Tokens(r.tokens + [Eof]) else r
  }

  lemma {:induction false} LexHasNoEof(s: string, start: bool)
    ensures Lex(s, start).Tokens? ==> Eof !in Lex(s, start).tokens
    decreases |s|
  {
    if s == [] {
    } else if IsSpace(s[0]) {
      LexHasNoEof(s[1..], start);
    } else if StartsNumber(s) {
      NumberStartsNumber(s);
      LexHasNoEof(s[NumberLength(s, false)..], false);
    } else if SymbolTokens(s[0], start) != [] {
      LexHasNoEof(s[1..], s[0] == '(');
    }
  }

  /** The end marker is the last token and no other. */
  lemma TokenizedEnds(s: string)
    requires Tokenized(s).Tokens?
    ensures var ts := Tokenized(s).tokens; ts != [] && ts[|ts| - 1] == Eof && Eof !in ts[..|ts| - 1]
  {
    LexHasNoEof(s, true);
  }

  // ---------- the tokenizer loop ----------

  function TrimLeft(s: string): string {
    if s != [] && s[0] in " \t" then TrimLeft(s[1..]) else s
  }

  /** Prepending "0" to an expression with a leading minus yields the very tokens the zero
      insertion at the first minus yields. */
  lemma {:induction false} LeadingZeroIsRedundant(s: string)
    requires TrimLeft(s) != [] && TrimLeft(s)[0] == '-'
    ensures Lex("0" + s, true) == Lex(s, true)
    ensures Lex(s, true).Tokens? ==> Lex(s, true).tokens != [] && Lex(s, true).tokens[0] == Number("0")
  {
    var t := "0" + s;
    assert t[1..] == s;
    assert NumberLength(s, false) == 0;
    assert t[..1] == "0";
    assert Lex(t, true) == Prepend([Number("0")], Lex(s, false));
    LeadingMinus(s);
  }

  lemma {:induction false} LeadingMinus(s: string)
    requires TrimLeft(s) != [] && TrimLeft(s)[0] == '-'
    ensures Lex(s, true) == Prepend([Number("0")], Lex(s, false))
  {
    if s[0] in " \t" {
      LeadingMinus(s[1..]);
    } else {
      var r := Lex(s[1..], false);
      assert Lex(s, true) == Prepend([Number("0"), Minus], r) && Lex(s, false) == Prepend([Minus], r);
      if r.Tokens? { assert [Number("0"), Minus] + r.tokens == [Number("0")] + ([Minus] + r.tokens); }
    }
  }

  /** No operand before: nothing read yet, or an open parenthesis. */
  predicate AtStart(tokens: seq<Token>) {
    tokens == [] || tokens[|tokens| - 1] == LeftParen
  }

  /** A step over one character of a number. */
  lemma {:induction false} NumberStep(s: string, i: nat, hasDecimal: bool)
    requires i < |s|
    ensures NumberLength(s[i..], hasDecimal) ==
            if IsDigit(s[i]) then 1 + NumberLength(s[i + 1..], hasDecimal)
            else if s[i] == '.' && !hasDecimal then 1 + NumberLength(s[i + 1..], true)
            else 0
  {
    assert s[i..][1..] == s[i + 1..];
  }

  /** Reading a number off the front. */
  lemma {:induction false} LexNumber(s: string, n: nat)
    requires StartsNumber(s) && n == NumberLength(s, false)
    ensures 0 < n <= |s| && IsLiteral(s[..n])
    ensures Lex(s, false) == Lex(s, true) == Prepend([Number(s[..n])], Lex(s[n..], false))
  {
    NumberStartsNumber(s);
  }

  /** What the number at `start` is and what is left behind it. */
  lemma NumberRead(expr: string, start: nat, i: nat)
    requires start < |expr| && StartsNumber(expr[start..]) && i == start + NumberLength(expr[start..], false)
    ensures start < i <= |expr| && IsLiteral(expr[start..i])
    ensures Lex(expr[start..], false) == Lex(expr[start..], true) ==
            Prepend([Number(expr[start..i])], Lex(expr[i..], false))
  {
    LexNumber(expr[start..], i - start);
    assert expr[start..i] == expr[start..][..i - start] && expr[i..] == expr[start..][i - start..];
  }

  method ScanNumber(expr: string, start: nat) returns (i: nat)
    requires start < |expr| && StartsNumber(expr[start..])
    ensures start < i <= |expr| && IsLiteral(expr[start..i])
    ensures Lex(expr[start..], false) == Lex(expr[start..], true) ==
            Prepend([Number(expr[start..i])], Lex(expr[i..], false))
  {
    i := start;
    var hasDecimal := false;
    ghost var length := NumberLength(expr[start..], false);
    while i < |expr|
      invariant start <= i <= |expr|
      invariant start + length == i + NumberLength(expr[i..], hasDecimal)
    {
      NumberStep(expr, i, hasDecimal);
      if IsDigit(expr[i]) {
        i := i + 1;
      } else if expr[i] == '.' && !hasDecimal {
        hasDecimal := true;
        i := i + 1;
      } else {
        break;
      }
    }
    NumberRead(expr, start, i);
  }

  lemma PrependTwice(a: seq<Token>, b: seq<Token>, r: LexResult)
    ensures Prepend(a, Prepend(b, r)) == Prepend(a + b, r)
  {
    if r.Tokens? { assert a + (b + r.tokens) == (a + b) + r.tokens; }
  }

  lemma LexSymbol(s: string, start: bool)
    requires s != [] && !IsSpace(s[0]) && !StartsNumber(s)
    ensures SymbolTokens(s[0], start) != [] ==>
              Lex(s, start) == Prepend(SymbolTokens(s[0], start), Lex(s[1..], s[0] == '('))
    ensures SymbolTokens(s[0], start) == [] ==>
              Lex(s, start) == Invalid(if s[0] == '.' then InvalidDecimalPoint else InvalidCharacter(s[0]))
  {
  }

  /** The switch over operators and parentheses. */
  method AppendSymbol(tokens: seq<Token>, ch: char) returns (r: seq<Token>, error: Option<LexError>)
    ensures r == tokens + SymbolTokens(ch, AtStart(tokens))
    ensures error.None? <==> SymbolTokens(ch, AtStart(tokens)) != []
    ensures error.None? ==> (AtStart(r) <==> ch == '(')
    ensures error.Some? ==> error.value == if ch == '.' then InvalidDecimalPoint else InvalidCharacter(ch)
  {
    r, error := tokens, None;
    match ch {
      case '+' => r := r + [Plus];
      case '-' =>
        // a minus without a left operand subtracts from an inserted zero
        if AtStart(tokens) {
          r := r + [Number("0")];
        }
        r := r + [Minus];
      case '*' => r := r + [Multiply];
      case '/' => r := r + [Divide];
      case '(' => r := r + [LeftParen];
      case ')' => r := r + [RightParen];
      case '.' => error := Some(InvalidDecimalPoint);
      case _ => error := Some(InvalidCharacter(ch));
    }
  }

  /** `tokens` are read and `rest` is still to be read. */
  ghost predicate LexedSoFar(input: string, tokens: seq<Token>, rest: string) {
    Lex(input, true) == Prepend(tokens, Lex(rest, AtStart(tokens)))
  }

  lemma {:induction false} LexMore(input: string, tokens: seq<Token>, rest: string, read: seq<Token>, rest': string)
    requires LexedSoFar(input, tokens, rest)
    requires Lex(rest, AtStart(tokens)) == Prepend(read, Lex(rest', AtStart(tokens + read)))
    ensures LexedSoFar(input, tokens + read, rest')
  {
    PrependTwice(tokens, read, Lex(rest', AtStart(tokens + read)));
  }

  /** One round of the tokenizer loop: skips a space or reads one token from position `i`. */
  method ScanToken(ghost input: string, expr: string, i: nat, tokens: seq<Token>)
    returns (next: nat, more: seq<Token>, error: Option<LexError>)
    requires i < |expr| && LexedSoFar(input, tokens, expr[i..])
    ensures error.None? ==> i < next <= |expr| && LexedSoFar(input, more, expr[next..])
    ensures error.Some? ==> Lex(input, true) == Invalid(error.value)
  {
    var ch := expr[i];
    ghost var rest := expr[i..];
    assert rest[1..] == expr[i + 1..];
    if IsSpace(ch) {
      return i + 1, tokens, None;
    }
    if IsDigit(ch) || (ch == '.' && i + 1 < |expr| && IsDigit(expr[i + 1])) {
      var end := ScanNumber(expr, i);
      LexMore(input, tokens, rest, [Number(expr[i..end])], expr[end..]);
      return end, tokens + [Number(expr[i..end])], None;
    }
    LexSymbol(rest, AtStart(tokens));
    next := i + 1;
    more, error := AppendSymbol(tokens, ch);
    if error.None? {
      LexMore(input, tokens, rest, SymbolTokens(ch, AtStart(tokens)), rest[1..]);
    }
  }

  method Tokenize(input: string) returns (r: LexResult)
    ensures r == Tokenized(input)
  {
    var expr := input;
    var tokens: seq<Token> := [];
    var i := 0;
    var trimmed := TrimLeft(input);
    var hasLeadingMinus := trimmed != [] && trimmed[0] == '-';
    if hasLeadingMinus {
      LeadingZeroIsRedundant(input);
      expr := "0" + input;
    }
    assert expr[0..] == expr;
    StartLexed(input, expr);
    while i < |expr|
      invariant 0 <= i <= |expr|
      invariant LexedSoFar(input, tokens, expr[i..])
    {
      var error;
      i, tokens, error := ScanToken(input, expr, i, tokens);
      if error.Some? {
        return Invalid(error.value);
      }
    }
    if hasLeadingMinus && |tokens| > 0 && tokens[0] == Minus {
      // the zero put in front of the text is always the first token
      assert false;
    }
    r := Tokens(tokens + [Eof]);
  }

  lemma {:induction false} StartLexed(input: string, expr: string)
    requires Lex(expr, true) == Lex(input, true)
    ensures LexedSoFar(input, [], expr)
  {
    var r := Lex(expr, true);
    if r.Tokens? { assert [] + r.tokens == r.tokens; }
  }

  // ---------- rendering ----------

  function Spell(t: Token): string {
    match t
    case Number(v) => v
    case Plus => "+"
    case Minus => "-"
    case Multiply => "*"
    case Divide => "/"
    case LeftParen => "("
    case RightParen => ")"
    case Eof => ""
  }

  /** The text of the tokens with `gaps[i]` before token `i` and one more gap at the end. */
  function Render(ts: seq<Token>, gaps: seq<string>): string
    requires |gaps| == |ts| + 1
  {
    if ts == [] then gaps[0] else gaps[0] + Spell(ts[0]) + Render(ts[1..], gaps[1..])
  }

  ghost predicate Spacing(gaps: seq<string>) {
    forall g :: g in gaps ==> AllSpace(g)
  }

  /** Tokens that stay apart even when written without any space. */
  ghost predicate Separable(ts: seq<Token>) {
    && (forall i :: 0 <= i < |ts| ==> ts[i] != Eof)
    && (forall i :: 0 <= i < |ts| - 1 ==> !(ts[i].Number? && ts[i + 1].Number?))
  }

  /** A text that cannot continue a number. */
  predicate Boundary(s: string) {
    s == [] || !(IsDigit(s[0]) || s[0] == '.')
  }

  /** The tokens read for written tokens: a zero before every minus without a left operand. */
  function Inserted(ts: seq<Token>, start: bool): seq<Token> {
    if ts == [] then []
    else (if ts[0] == Minus then MinusTokens(start) else [ts[0]]) + Inserted(ts[1..], ts[0] == LeftParen)
  }

  function StartAfter(ts: seq<Token>, start: bool): bool {
    if ts == [] then start else ts[|ts| - 1] == LeftParen
  }

  lemma {:induction false} SkipSpace(gap: string, s: string, start: bool)
    requires AllSpace(gap)
    ensures Lex(gap + s, start) == Lex(s, start)
  {
    if gap == [] {
      assert gap + s == s;
    } else {
      assert gap[0] in gap && (gap + s)[1..] == gap[1..] + s;
      SkipSpace(gap[1..], s, start);
    }
  }

  lemma {:induction false} WholeLiteral(v: string, hasDecimal: bool, rest: string)
    requires LiteralTail(v, hasDecimal) && Boundary(rest)
    ensures NumberLength(v + rest, hasDecimal) == |v|
  {
    if v == [] {
      assert v + rest == rest;
    } else {
      assert (v + rest)[1..] == v[1..] + rest;
      WholeLiteral(v[1..], hasDecimal || !IsDigit(v[0]), rest);
    }
  }

  lemma {:induction false} LexToken(t: Token, rest: string, start: bool)
    requires t != Eof && (t.Number? ==> Boundary(rest))
    ensures Lex(Spell(t) + rest, start) == Prepend(Inserted([t], start), Lex(rest, t == LeftParen))
  {
    if t.Number? {
      var s := Spell(t) + rest;
      WholeLiteral(t.value, false, rest);
      assert s[..|t.value|] == t.value && s[|t.value|..] == rest;
    } else {
      LexSymbolToken(t, rest, start);
    }
  }

  lemma {:induction false} LexSymbolToken(t: Token, rest: string, start: bool)
    requires t != Eof && !t.Number?
    ensures Lex(Spell(t) + rest, start) == Prepend(Inserted([t], start), Lex(rest, t == LeftParen))
  {
    var s := Spell(t) + rest;
    assert s[0] == Spell(t)[0] && s[1..] == rest;
    assert Inserted([t], start) == if t == Minus then MinusTokens(start) else [t];
    assert SymbolTokens(s[0], start) == Inserted([t], start);
  }

  lemma {:induction false} RenderBoundary(ts: seq<Token>, gaps: seq<string>, suffix: string)
    requires |gaps| == |ts| + 1 && Spacing(gaps) && Boundary(suffix)
    ensures ts == [] || (!ts[0].Number? && ts[0] != Eof) ==> Boundary(Render(ts, gaps) + suffix)
  {
    assert gaps[0] in gaps;
    if gaps[0] != [] { assert gaps[0][0] in gaps[0]; }
  }

  /** Reading back a rendering yields the written tokens with the zeros inserted, whatever the
      spacing, and goes on with whatever text follows. */
  lemma {:induction false} LexRender(ts: seq<Token>, gaps: seq<string>, suffix: string, start: bool)
    requires |gaps| == |ts| + 1 && Spacing(gaps) && Separable(ts)
    requires Boundary(suffix)
    ensures Lex(Render(ts, gaps) + suffix, start) == Prepend(Inserted(ts, start), Lex(suffix, StartAfter(ts, start)))
    decreases |ts|
  {
    if ts == [] {
      SkipSpace(gaps[0], suffix, start);
      var r := Lex(suffix, start);
      if r.Tokens? { assert [] + r.tokens == r.tokens; }
    } else {
      var tail := Render(ts[1..], gaps[1..]) + suffix;
      LexRender(ts[1..], gaps[1..], suffix, ts[0] == LeftParen);
      LexFirst(ts, gaps, suffix, start);
      InsertedFirst(ts, start);
      PrependTwice(Inserted([ts[0]], start), Inserted(ts[1..], ts[0] == LeftParen), Lex(suffix, StartAfter(ts, start)));
    }
  }

  lemma {:induction false} RenderFirst(ts: seq<Token>, gaps: seq<string>, suffix: string)
    requires ts != [] && |gaps| == |ts| + 1
    ensures Render(ts, gaps) + suffix == gaps[0] + (Spell(ts[0]) + (Render(ts[1..], gaps[1..]) + suffix))
  {
  }

  /** The first token of a rendering is read off, and the rest of the rendering is left. */
  lemma LexFirst(ts: seq<Token>, gaps: seq<string>, suffix: string, start: bool)
    requires ts != [] && |gaps| == |ts| + 1 && Spacing(gaps) && Separable(ts) && Boundary(suffix)
    ensures Lex(Render(ts, gaps) + suffix, start) ==
            Prepend(Inserted([ts[0]], start), Lex(Render(ts[1..], gaps[1..]) + suffix, ts[0] == LeftParen))
  {
    var tail := Render(ts[1..], gaps[1..]) + suffix;
    assert gaps[0] in gaps && forall g :: g in gaps[1..] ==> g in gaps;
    RenderFirst(ts, gaps, suffix);
    SkipSpace(gaps[0], Spell(ts[0]) + tail, start);
    RenderBoundary(ts[1..], gaps[1..], suffix);
    LexToken(ts[0], tail, start);
  }

  lemma InsertedFirst(ts: seq<Token>, start: bool)
    requires ts != []
    ensures Inserted(ts, start) == Inserted([ts[0]], start) + Inserted(ts[1..], ts[0] == LeftParen)
    ensures StartAfter(ts[1..], ts[0] == LeftParen) == StartAfter(ts, start)
  {
    assert Inserted([ts[0]], start) == if ts[0] == Minus then MinusTokens(start) else [ts[0]];
  }
}
