/** Which texts the tokenizer accepts, what it reads from them and where it refuses the others,
    character by character.
 */
module CalculatorTexts {
  import opened CalculatorLexer
  import opened Numbers
  import opened Wrappers

  // ---------- what is refused ----------

  predicate Blank(c: char) {
    c in {'\t', '\n', '\r', ' '} || c as int in {0x0B, 0x0C, 0x85, 0xA0}
  }

  predicate Allowed(c: char) {
    Blank(c) || c in "0123456789.+-*/()"
  }

  /** From `j` to `i` there are digits only, and neither a digit nor a point before them. */
  predicate WholeFrom(s: string, j: nat, i: nat) {
    j < i <= |s| && AllDigits(s[j..i]) && (j == 0 || !(IsDigit(s[j - 1]) || s[j - 1] == '.'))
  }

  /** Right before position `i` stands a number without a decimal point. */
  ghost predicate BehindWhole(s: string, i: nat) {
    exists j: nat :: WholeFrom(s, j, i)
  }

  /** A point that neither begins a number nor continues one. */
  ghost predicate Misplaced(s: string, i: nat)
    requires i < |s|
  {
    s[i] == '.' && !(i + 1 < |s| && IsDigit(s[i + 1])) && !BehindWhole(s, i)
  }

  ghost predicate Bad(s: string, i: nat)
    requires i < |s|
  {
    !Allowed(s[i]) || Misplaced(s, i)
  }

  ghost predicate FirstBad(s: string, i: nat) {
    i < |s| && Bad(s, i) && forall j :: 0 <= j < i ==> !Bad(s, j)
  }

  function ErrorAt(c: char): LexError {
    if c == '.' then InvalidDecimalPoint else InvalidCharacter(c)
  }

  /** Refused at the first bad position, or read because there is none. */
  ghost predicate Judged(s: string, r: LexResult) {
    match r
    case Tokens(_) => forall i :: 0 <= i < |s| ==> !Bad(s, i)
    case Invalid(e) => exists i: nat :: FirstBad(s, i) && e == ErrorAt(s[i])
  }

  /** The front of `s` is fine, and so far as it matters the rest begins anew. */
  ghost predicate Splits(s: string, n: nat) {
    && n <= |s| && (forall i :: 0 <= i < n ==> !Bad(s, i))
    && forall i :: 0 <= i < |s| - n ==> (Bad(s, n + i) <==> Bad(s[n..], i))
  }

  lemma JudgedRest(s: string, n: nat, r: LexResult)
    requires Splits(s, n) && Judged(s[n..], r)
    ensures Judged(s, r)
  {
    var rest := s[n..];
    match r
    case Tokens(_) =>
      forall i | 0 <= i < |s| ensures !Bad(s, i) {
        if i >= n { assert !Bad(rest, i - n); }
      }
    case Invalid(e) =>
      var k: nat :| FirstBad(rest, k) && e == ErrorAt(rest[k]);
      forall j | 0 <= j < n + k ensures !Bad(s, j) {
        if j >= n { assert !Bad(rest, j - n); }
      }
      assert FirstBad(s, n + k);
  }

  lemma InsideRun(s: string, j: nat, i: nat, k: nat)
    requires WholeFrom(s, j, i) && j <= k < i
    ensures IsDigit(s[k])
  {
    assert s[j..i][k - j] == s[k] && s[j..i][k - j] in s[j..i];
  }

  /** A character that is not part of a number separates. */
  lemma SplitsBehindSymbol(s: string)
    requires s != [] && Allowed(s[0]) && !IsDigit(s[0]) && s[0] != '.'
    ensures Splits(s, 1)
  {
    var rest := s[1..];
    forall i | 0 <= i < |rest| ensures Bad(s, 1 + i) <==> Bad(rest, i) {
      var end := 1 + i;
      if j: nat :| WholeFrom(s, j, end) {
        InsideRun(s, j, end, j);
        assert rest[j - 1..i] == s[j..end] && WholeFrom(rest, j - 1, i);
      }
      if j: nat :| WholeFrom(rest, j, i) {
        assert s[j + 1..end] == rest[j..i] && WholeFrom(s, j + 1, end);
      }
    }
  }

  /** What makes up a number and what ends it. */
  lemma {:induction false} NumberShape(s: string, seen: bool)
    ensures var n := NumberLength(s, seen);
            && (forall i :: 0 <= i < n ==> IsDigit(s[i]) || (s[i] == '.' && !seen))
            && (forall i, j :: 0 <= i < n && 0 <= j < n && s[i] == '.' && s[j] == '.' ==> i == j)
            && (n < |s| ==> !IsDigit(s[n]) && (s[n] == '.' ==> seen || exists i :: 0 <= i < n && s[i] == '.'))
  {
    if s != [] && (IsDigit(s[0]) || (s[0] == '.' && !seen)) {
      var seen' := seen || s[0] == '.';
      NumberShape(s[1..], seen');
      var m := NumberLength(s[1..], seen');
      if m < |s[1..]| && s[1..][m] == '.' && !seen {
        if s[0] == '.' {
          assert s[0] == '.';
        } else {
          var i :| 0 <= i < m && s[1..][i] == '.';
          assert s[i + 1] == '.';
        }
      }
    }
  }

  lemma {:induction false} FineInNumber(s: string, n: nat, i: nat)
    requires StartsNumber(s) && n == NumberLength(s, false) && i < n
    ensures !Bad(s, i)
  {
    NumberShape(s, false);
    if IsDigit(s[i]) { DigitsAllowed(s[i]); }
    if s[i] == '.' && i > 0 {
      assert forall c :: c in s[0..i] ==> IsDigit(c);
      assert WholeFrom(s, 0, i);
    }
  }

  lemma DigitsAllowed(c: char)
    requires IsDigit(c)
    ensures Allowed(c)
  {
    var i := (c - '0') as int;
    assert "0123456789.+-*/()"[i] == c;
  }

  /** No number runs over the end of another. */
  lemma {:induction false} StartsBehind(s: string, n: nat, end: nat, j: nat)
    requires StartsNumber(s) && n == NumberLength(s, false) && n <= end < |s| && (end == n ==> s[n] == '.')
    requires WholeFrom(s, j, end)
    ensures n < j
  {
    NumberShape(s, false);
    if end > n {
      if j <= n { InsideRun(s, j, end, n); }
    } else {
      var d :| 0 <= d < n && s[d] == '.';
      if j <= d { InsideRun(s, j, n, d); }
    }
  }

  /** Behind the number a run of digits is one of the rest too. */
  lemma RunInRest(s: string, n: nat, j: nat, i: nat)
    requires 0 < j < i && n + i <= |s|
    ensures WholeFrom(s, n + j, n + i) <==> WholeFrom(s[n..], j, i)
  {
    assert s[n..][j..i] == s[n + j..n + i] && s[n..][j - 1] == s[n + j - 1];
  }

  lemma {:induction false} NumberEnds(s: string)
    ensures var n := NumberLength(s, false); n < |s| ==> !IsDigit(s[n])
  {
    NumberShape(s, false);
  }

  /** No run of digits begins right behind a number. */
  lemma {:induction false} RunBeginsLater(s: string, n: nat, j: nat, i: nat)
    requires n == NumberLength(s, false) && WholeFrom(s[n..], j, i)
    ensures j > 0
  {
    NumberEnds(s);
    InsideRun(s[n..], j, i, j);
    assert s[n..][j] == s[n + j];
  }

  lemma {:induction false} BehindNumber(s: string, n: nat, i: nat)
    requires StartsNumber(s) && n == NumberLength(s, false) && n + i < |s| && (i == 0 ==> s[n] == '.')
    ensures BehindWhole(s, n + i) <==> BehindWhole(s[n..], i)
  {
    var end := n + i;
    if j: nat :| WholeFrom(s, j, end) {
      StartsBehind(s, n, end, j);
      RunInRest(s, n, j - n, i);
    }
    if j: nat :| WholeFrom(s[n..], j, i) {
      RunBeginsLater(s, n, j, i);
      RunInRest(s, n, j, i);
    }
  }

  lemma {:induction false} SplitsBehindNumber(s: string, n: nat)
    requires StartsNumber(s) && n == NumberLength(s, false)
    ensures Splits(s, n)
  {
    forall i | 0 <= i < n ensures !Bad(s, i) { FineInNumber(s, n, i); }
    forall i | 0 <= i < |s| - n ensures Bad(s, n + i) <==> Bad(s[n..], i) {
      if s[n + i] == '.' { BehindNumber(s, n, i); }
    }
  }

  lemma {:induction false} LexJudged(s: string, start: bool)
    ensures Judged(s, Lex(s, start))
    decreases |s|
  {
    if s == [] {
    } else if IsSpace(s[0]) {
      SplitsBehindSymbol(s);
      LexJudged(s[1..], start);
      JudgedRest(s, 1, Lex(s[1..], start));
    } else if StartsNumber(s) {
      var n := NumberLength(s, false);
      NumberStartsNumber(s);
      SplitsBehindNumber(s, n);
      LexJudged(s[n..], false);
      JudgedRest(s, n, Lex(s[n..], false));
    } else if SymbolTokens(s[0], start) != [] {
      SymbolAllowed(s[0], start);
      SplitsBehindSymbol(s);
      LexJudged(s[1..], s[0] == '(');
      JudgedRest(s, 1, Lex(s[1..], s[0] == '('));
    } else {
      NothingElse(s, start);
    }
  }

  lemma SymbolAllowed(c: char, start: bool)
    requires SymbolTokens(c, start) != []
    ensures Allowed(c) && !IsDigit(c) && c != '.'
  {
    var symbols := "0123456789.+-*/()";
    assert symbols[11] == '+' && symbols[12] == '-' && symbols[13] == '*' && symbols[14] == '/'
           && symbols[15] == '(' && symbols[16] == ')';
  }

  /** What is neither space nor symbol and begins no number is bad. */
  lemma NothingElse(s: string, start: bool)
    requires s != [] && !IsSpace(s[0]) && !StartsNumber(s) && SymbolTokens(s[0], start) == []
    ensures FirstBad(s, 0)
  {
    if Allowed(s[0]) {
      var i :| 0 <= i < 17 && "0123456789.+-*/()"[i] == s[0];
    }
  }

  /** A text is read exactly if every character is white space, a digit, a point or one of + - * / ( ) and
      every point begins or continues a number; otherwise the error names its first character that is
      not, or is that of a misplaced point. */
  lemma RefusedAtFirstBad(s: string)
    ensures Tokenized(s).Tokens? <==> forall i :: 0 <= i < |s| ==> !Bad(s, i)
    ensures Tokenized(s).Invalid? ==> exists i: nat :: FirstBad(s, i) && Tokenized(s).error == ErrorAt(s[i])
  {
    LexJudged(s, true);
  }

  // ---------- what is read ----------

  /** Two tokens may be written without a space between them, unless both are numbers: these may touch
      only at the second one's point, when the first has a point already. */
  predicate MayTouch(a: Token, b: Token) {
    a.Number? && b.Number? ==> '.' in a.value && b.value[0] == '.'
  }

  /** `s` is the written tokens with white space around them. */
  ghost predicate Writes(s: string, ws: seq<Token>, gaps: seq<string>) {
    && |gaps| == |ws| + 1 && Spacing(gaps) && (forall i :: 0 <= i < |ws| ==> ws[i] != Eof)
    && s == Render(ws, gaps)
    && forall i :: 0 <= i < |ws| - 1 && gaps[i + 1] == [] ==> MayTouch(ws[i], ws[i + 1])
  }

  lemma {:induction false} LiteralEnds(v: string, seen: bool, rest: string)
    requires LiteralTail(v, seen)
    requires rest != [] ==> !IsDigit(rest[0]) && (rest[0] == '.' ==> seen || '.' in v)
    ensures NumberLength(v + rest, seen) == |v|
  {
    if v == [] {
      assert v + rest == rest;
    } else {
      assert (v + rest)[1..] == v[1..] + rest;
      LiteralEnds(v[1..], seen || !IsDigit(v[0]), rest);
    }
  }

  /** What follows a written number ends it. */
  lemma BehindWritten(s: string, ws: seq<Token>, gaps: seq<string>)
    requires Writes(s, ws, gaps) && ws != [] && ws[0].Number?
    ensures var rest := Render(ws[1..], gaps[1..]);
            rest != [] ==> !IsDigit(rest[0]) && (rest[0] == '.' ==> '.' in ws[0].value)
  {
    var gap := gaps[1];
    assert gap in gaps;
    if gap != [] {
      assert gap[0] in gap;
    } else if |ws| > 1 {
      assert MayTouch(ws[0], ws[1]);
      assert Render(ws[1..], gaps[1..]) == gap + Spell(ws[1]) + Render(ws[1..][1..], gaps[1..][1..]);
    }
  }

  lemma RestWrites(s: string, ws: seq<Token>, gaps: seq<string>)
    requires Writes(s, ws, gaps) && ws != []
    ensures Writes(Render(ws[1..], gaps[1..]), ws[1..], gaps[1..])
    ensures s == gaps[0] + (Spell(ws[0]) + Render(ws[1..], gaps[1..])) && AllSpace(gaps[0])
  {
    assert gaps[0] in gaps && forall g :: g in gaps[1..] ==> g in gaps;
  }

  lemma {:induction false} LexNumberWritten(v: Literal, rest: string, start: bool)
    requires rest != [] ==> !IsDigit(rest[0]) && (rest[0] == '.' ==> '.' in v)
    ensures Lex(v + rest, start) == Prepend([Number(v)], Lex(rest, false))
  {
    var s := v + rest;
    LiteralEnds(v, false, rest);
    assert s[..|v|] == v && s[|v|..] == rest && StartsNumber(s);
  }

  lemma {:induction false} LexFirstWritten(t: Token, rest: string, start: bool)
    requires t != Eof
    requires t.Number? && rest != [] ==> !IsDigit(rest[0]) && (rest[0] == '.' ==> '.' in t.value)
    ensures Lex(Spell(t) + rest, start) == Prepend(Inserted([t], start), Lex(rest, t == LeftParen))
  {
    if t.Number? {
      LexNumberWritten(t.value, rest, start);
      assert Inserted([t], start) == [t];
    } else {
      LexSymbolToken(t, rest, start);
    }
  }

  lemma {:induction false} LexOfWritten(s: string, ws: seq<Token>, gaps: seq<string>, start: bool)
    requires Writes(s, ws, gaps)
    ensures Lex(s, start) == Tokens(Inserted(ws, start))
    decreases |ws|
  {
    if ws == [] {
      assert gaps[0] in gaps && s == gaps[0] + [];
      SkipSpace(gaps[0], [], start);
    } else {
      var rest := Render(ws[1..], gaps[1..]);
      RestWrites(s, ws, gaps);
      if ws[0].Number? { BehindWritten(s, ws, gaps); }
      SkipSpace(gaps[0], Spell(ws[0]) + rest, start);
      LexFirstWritten(ws[0], rest, start);
      LexOfWritten(rest, ws[1..], gaps[1..], ws[0] == LeftParen);
      InsertedFirst(ws, start);
    }
  }

  lemma SpaceBefore(c: char, rest: string, ws: seq<Token>, gaps: seq<string>)
    requires IsSpace(c) && Writes(rest, ws, gaps)
    ensures Writes([c] + rest, ws, [[c] + gaps[0]] + gaps[1..])
  {
    var more := [[c] + gaps[0]] + gaps[1..];
    assert gaps[0] in gaps;
    forall g | g in more ensures AllSpace(g) {
      if g != [c] + gaps[0] { assert g in gaps; }
    }
    assert more[1..] == gaps[1..];
    if ws != [] { assert [c] + (gaps[0] + Spell(ws[0]) + Render(ws[1..], gaps[1..])) ==
                         ([c] + gaps[0]) + Spell(ws[0]) + Render(ws[1..], gaps[1..]); }
  }

  lemma TokenBefore(t: Token, rest: string, ws: seq<Token>, gaps: seq<string>)
    requires t != Eof && Writes(rest, ws, gaps)
    requires t.Number? && rest != [] ==> !IsDigit(rest[0]) && (rest[0] == '.' ==> '.' in t.value)
    ensures Writes(Spell(t) + rest, [t] + ws, [""] + gaps)
  {
    var ts, more := [t] + ws, [""] + gaps;
    assert ts[1..] == ws && more[1..] == gaps;
    forall g | g in more ensures AllSpace(g) {
      if g != "" { assert g in gaps; }
    }
    forall i | 0 <= i < |ts| - 1 && more[i + 1] == [] ensures MayTouch(ts[i], ts[i + 1]) {
      if i == 0 {
        if t.Number? && ws[0].Number? {
          assert rest == gaps[0] + Spell(ws[0]) + Render(ws[1..], gaps[1..]);
          assert rest[0] == ws[0].value[0];
        }
      } else {
        assert MayTouch(ws[i - 1], ws[i]);
      }
    }
  }

  lemma SymbolOf(c: char, start: bool) returns (t: Token)
    requires SymbolTokens(c, start) != []
    ensures t != Eof && !t.Number? && Spell(t) == [c] && Inserted([t], start) == SymbolTokens(c, start)
    ensures t == LeftParen <==> c == '('
  {
    t := match c case '+' => Plus case '-' => Minus case '*' => Multiply case '/' => Divide case '(' => LeftParen
                 case _ => RightParen;
  }

  /** The first token of a text that is read. */
  lemma FirstWritten(s: string, start: bool) returns (n: nat, t: Token)
    requires Lex(s, start).Tokens? && s != [] && !IsSpace(s[0])
    ensures 0 < n <= |s| && t != Eof && s == Spell(t) + s[n..]
    ensures Lex(s, start) == Prepend(Inserted([t], start), Lex(s[n..], t == LeftParen))
    ensures t.Number? && s[n..] != [] ==> !IsDigit(s[n]) && (s[n] == '.' ==> '.' in t.value)
  {
    if StartsNumber(s) {
      n := NumberLength(s, false);
      NumberStartsNumber(s);
      NumberShape(s, false);
      BehindRead(s, n);
      t := Number(s[..n]);
    } else {
      n := 1;
      t := SymbolOf(s[0], start);
    }
  }

  lemma {:induction false} WrittenOfLex(s: string, start: bool) returns (ws: seq<Token>, gaps: seq<string>)
    requires Lex(s, start).Tokens?
    ensures Writes(s, ws, gaps) && Lex(s, start) == Tokens(Inserted(ws, start))
    decreases |s|
  {
    if s == [] {
      ws, gaps := [], [""];
    } else if IsSpace(s[0]) {
      ws, gaps := WrittenOfLex(s[1..], start);
      SpaceBefore(s[0], s[1..], ws, gaps);
      gaps := [[s[0]] + gaps[0]] + gaps[1..];
      assert s == [s[0]] + s[1..];
    } else {
      var n, t := FirstWritten(s, start);
      ws, gaps := WrittenOfLex(s[n..], t == LeftParen);
      TokenBefore(t, s[n..], ws, gaps);
      ws, gaps := [t] + ws, [""] + gaps;
      InsertedFirst(ws, start);
    }
  }

  lemma {:induction false} BehindRead(s: string, n: nat)
    requires StartsNumber(s) && n == NumberLength(s, false)
    ensures var rest := s[n..]; rest != [] ==> !IsDigit(rest[0]) && (rest[0] == '.' ==> '.' in s[..n])
  {
    NumberShape(s, false);
    if n < |s| && s[n] == '.' {
      var i :| 0 <= i < n && s[i] == '.';
      assert s[..n][i] == '.';
    }
  }

  /** A text is read as certain tokens exactly if it is some written tokens with white space around
      them and these, a zero inserted before every minus without a left operand, are the tokens. */
  lemma ReadIffWritten(s: string, tokens: seq<Token>)
    ensures Tokenized(s) == Tokens(tokens + [Eof]) <==>
            exists ws, gaps :: Writes(s, ws, gaps) && Inserted(ws, true) == tokens
  {
    if Tokenized(s).Tokens? {
      var ws, gaps := WrittenOfLex(s, true);
      var r := Lex(s, true).tokens;
      assert r + [Eof] == tokens + [Eof] ==> r == (r + [Eof])[..|r|] == tokens;
    }
    forall ws, gaps | Writes(s, ws, gaps) && Inserted(ws, true) == tokens
      ensures Tokenized(s) == Tokens(tokens + [Eof])
    {
      LexOfWritten(s, ws, gaps, true);
    }
  }

  /** What a single character is read as. */
  lemma {:induction false} OneCharacter(c: char, start: bool)
    ensures var r := Lex([c], start);
            if c in {'\t', '\n', '\r', ' '} || c as int in {0x0B, 0x0C, 0x85, 0xA0} then r == Tokens([])
            else if '0' <= c <= '9' then r.Tokens? && |r.tokens| == 1 && r.tokens[0].Number? && r.tokens[0].value == [c]
            else if c == '+' then r == Tokens([Plus])
            else if c == '-' then r == Tokens(if start then [Number("0"), Minus] else [Minus])
            else if c == '*' then r == Tokens([Multiply])
            else if c == '/' then r == Tokens([Divide])
            else if c == '(' then r == Tokens([LeftParen])
            else if c == ')' then r == Tokens([RightParen])
            else r == Invalid(if c == '.' then InvalidDecimalPoint else InvalidCharacter(c))
  {
    assert [c][1..] == [];
    if IsDigit(c) {
      assert NumberLength([c], false) == 1 && [c][..1] == [c];
    }
  }
}
