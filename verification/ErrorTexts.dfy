/** The texts of the embedding service's errors, and when a text counts as that of a transient error.
 */
module ErrorTexts {
  import opened Numbers

  predicate Contains(s: string, part: string) {
    exists i :: 0 <= i <= |s| && part <= s[i..]
  }

  predicate NamesServerError(s: string) {
    Contains(s, "500") || Contains(s, "502") || Contains(s, "503") || Contains(s, "504")
  }

  /** Errors are told apart by their text. */
  predicate IsTransient(message: string) {
    Contains(message, STATUS_FIVE) || NamesServerError(message)
  }

  function Decimal(n: nat): string {
    if n < 10 then ["0123456789"[n]] else Decimal(n / 10) + ["0123456789"[n % 10]]
  }

  const TEXT1 := "embeddings: vector "
  const TEXT2 := " has dimension "
  const TEXT3 := ", expected "
  const INTRO := "embeddings: server returned "
  const STATUS_TEXT := "status "
  const STATUS_FIVE := "status 5"

  function MismatchText(index: string, dim: string, expected: string): string {
    TEXT1 + (index + (TEXT2 + (dim + (TEXT3 + expected))))
  }

  function MismatchMessage(index: nat, dim: nat, expected: nat): string {
    MismatchText(Decimal(index), Decimal(dim), Decimal(expected))
  }

  function StatusMessage(code: nat, body: string): string {
    INTRO + (STATUS_TEXT + (Decimal(code) + (": " + body)))
  }

  // ---------- where a part can be ----------

  predicate NoDigits(s: string) { forall i :: 0 <= i < |s| ==> !IsDigit(s[i]) }

  lemma {:induction false} DecimalDigits(n: nat)
    ensures AllDigits(Decimal(n))
  {
    assert AllDigits("0123456789");
    if n >= 10 { DecimalDigits(n / 10); }
  }

  lemma ContainedAt(s: string, part: string) returns (i: nat)
    requires Contains(s, part)
    ensures i + |part| <= |s| && s[i..i + |part|] == part && forall k :: 0 <= k < |part| ==> s[i + k] == part[k]
  {
    i :| 0 <= i <= |s| && part <= s[i..];
    assert s[i..i + |part|] == part;
    forall k | 0 <= k < |part| ensures s[i + k] == part[k] { assert s[i..][k] == part[k]; }
  }

  lemma ContainsAt(s: string, part: string, i: nat)
    requires i + |part| <= |s| && s[i..i + |part|] == part
    ensures Contains(s, part)
  {
    assert part <= s[i..];
  }

  lemma ContainsJoined(front: string, back: string, code: string)
    requires Contains(front, code) || Contains(back, code)
    ensures Contains(front + back, code)
  {
    if Contains(front, code) {
      var i := ContainedAt(front, code);
      assert (front + back)[i..i + |code|] == front[i..i + |code|];
      ContainsAt(front + back, code, i);
    } else {
      var i := ContainedAt(back, code);
      assert (front + back)[|front| + i..|front| + i + |code|] == back[i..i + |code|];
      ContainsAt(front + back, code, |front| + i);
    }
  }

  /** A part does not begin in a text that lacks its first character. */
  lemma PartBehindText(text: string, rest: string, part: string)
    requires part != "" && part[0] !in text
    ensures Contains(text + rest, part) <==> Contains(rest, part)
  {
    if Contains(text + rest, part) {
      var i := ContainedAt(text + rest, part);
      assert (text + rest)[i + 0] == part[0];
      assert forall k :: 0 <= k < |text| ==> (text + rest)[k] == text[k] && text[k] in text;
      assert rest[i - |text|..i - |text| + |part|] == part;
      ContainsAt(rest, part, i - |text|);
    } else if Contains(rest, part) {
      ContainsJoined(text, rest, part);
    }
  }

  /** Text without digits in front adds no code. */
  lemma CodeBehindText(text: string, rest: string, code: string)
    requires NoDigits(text) && AllDigits(code) && code != ""
    ensures Contains(text + rest, code) <==> Contains(rest, code)
  {
    assert code[0] in code;
    PartBehindText(text, rest, code);
  }

  lemma StraddlingDigit(number: string, rest: string, code: string, i: nat)
    requires AllDigits(code) && i + |code| <= |number + rest| && (number + rest)[i..i + |code|] == code
    requires |number| < i + |code|
    ensures i < |number| ==> rest != "" && IsDigit(rest[0])
  {
    if i < |number| {
      assert (number + rest)[i..i + |code|][|number| - i] == rest[0];
    }
  }

  /** A code does not straddle the end of a number. */
  lemma CodeInNumberOrBehind(number: string, rest: string, code: string)
    requires AllDigits(number) && AllDigits(code) && (rest == "" || !IsDigit(rest[0]))
    ensures Contains(number + rest, code) <==> Contains(number, code) || Contains(rest, code)
  {
    if Contains(number, code) || Contains(rest, code) {
      ContainsJoined(number, rest, code);
    } else if Contains(number + rest, code) {
      var i := ContainedAt(number + rest, code);
      if i + |code| <= |number| {
        assert number[i..i + |code|] == (number + rest)[i..i + |code|];
        ContainsAt(number, code, i);
      } else {
        StraddlingDigit(number, rest, code, i);
        assert rest[i - |number|..i - |number| + |code|] == (number + rest)[i..i + |code|];
        ContainsAt(rest, code, i - |number|);
      }
    }
  }

  lemma CodeInMessage(d1: string, d2: string, d3: string, code: string)
    requires AllDigits(d1) && AllDigits(d2) && AllDigits(d3) && AllDigits(code) && code != ""
    ensures Contains(MismatchText(d1, d2, d3), code) <==>
            Contains(d1, code) || Contains(d2, code) || Contains(d3, code)
  {
    var rest2 := TEXT3 + d3;
    var rest1 := TEXT2 + (d2 + rest2);
    CodeBehindText(TEXT1, d1 + rest1, code);
    CodeInNumberOrBehind(d1, rest1, code);
    CodeBehindText(TEXT2, d2 + rest2, code);
    CodeInNumberOrBehind(d2, rest2, code);
    CodeBehindText(TEXT3, d3, code);
  }

  lemma CodesInMessage(d1: string, d2: string, d3: string)
    requires AllDigits(d1) && AllDigits(d2) && AllDigits(d3)
    ensures NamesServerError(MismatchText(d1, d2, d3)) <==>
            NamesServerError(d1) || NamesServerError(d2) || NamesServerError(d3)
  {
    CodeInMessage(d1, d2, d3, "500");
    CodeInMessage(d1, d2, d3, "502");
    CodeInMessage(d1, d2, d3, "503");
    CodeInMessage(d1, d2, d3, "504");
  }

  lemma StatusHasU(message: string)
    requires Contains(message, STATUS_FIVE)
    ensures 'u' in message
  {
    var i := ContainedAt(message, STATUS_FIVE);
    assert message[i + 4] == 'u';
  }

  lemma NoStatusInMessage(d1: string, d2: string, d3: string)
    requires AllDigits(d1) && AllDigits(d2) && AllDigits(d3)
    ensures !Contains(MismatchText(d1, d2, d3), STATUS_FIVE)
  {
    if Contains(MismatchText(d1, d2, d3), STATUS_FIVE) {
      StatusHasU(MismatchText(d1, d2, d3));
      assert false;
    }
  }

  lemma {:induction false} MismatchTransientIff(index: nat, dim: nat, expected: nat)
    ensures IsTransient(MismatchMessage(index, dim, expected)) <==>
            NamesServerError(Decimal(index)) || NamesServerError(Decimal(dim)) || NamesServerError(Decimal(expected))
  {
    DecimalDigits(index);
    DecimalDigits(dim);
    DecimalDigits(expected);
    NoStatusInMessage(Decimal(index), Decimal(dim), Decimal(expected));
    CodesInMessage(Decimal(index), Decimal(dim), Decimal(expected));
  }

  lemma FiveHundred()
    ensures NamesServerError(Decimal(500))
  {
    assert Decimal(5) == "5" && Decimal(50) == "50" && Decimal(500) == "500";
    ContainsAt("500", "500", 0);
  }

  // ---------- status messages ----------

  lemma Letters()
    ensures |STATUS_FIVE| == 8 && STATUS_FIVE[0] == 's' && STATUS_FIVE[1] == 't' && STATUS_FIVE[2] == 'a'
    ensures STATUS_FIVE[7] == '5' && STATUS_FIVE[..7] == STATUS_TEXT
    ensures |INTRO| == 28 && 'a' !in INTRO && INTRO[26] == 'd' && INTRO[27] == ' '
    ensures |STATUS_TEXT| == 7 && STATUS_TEXT[6] == ' '
    ensures forall k :: 0 <= k < 7 && STATUS_TEXT[k] == 's' ==> k == 0 || k == 5
  {
  }

  /** Where a part is, its characters are. */
  lemma FiveAt(all: string) returns (i: nat)
    requires Contains(all, STATUS_FIVE)
    ensures i + 8 <= |all| && all[i..i + 8] == STATUS_FIVE
    ensures all[i] == 's' && all[i + 1] == 't' && all[i + 2] == 'a' && all[i + 7] == '5'
  {
    Letters();
    i := ContainedAt(all, STATUS_FIVE);
    assert all[i + 0] == STATUS_FIVE[0] && all[i + 1] == STATUS_FIVE[1];
  }

  lemma FiveBeyond(text: string, rest: string)
    requires |text| == 28 && 'a' !in text && text[26] != 's' && text[27] != 's'
    requires Contains(text + rest, STATUS_FIVE)
    ensures Contains(rest, STATUS_FIVE)
  {
    var all := text + rest;
    var i := FiveAt(all);
    assert forall k :: 0 <= k < 28 ==> all[k] == text[k] && text[k] in text;
    assert i >= 28;
    assert rest[i - 28..i - 28 + 8] == all[i..i + 8];
    ContainsAt(rest, STATUS_FIVE, i - 28);
  }

  lemma FiveBehindIntro(rest: string)
    ensures Contains(INTRO + rest, STATUS_FIVE) <==> Contains(rest, STATUS_FIVE)
  {
    Letters();
    if Contains(INTRO + rest, STATUS_FIVE) {
      FiveBeyond(INTRO, rest);
    } else if Contains(rest, STATUS_FIVE) {
      ContainsJoined(INTRO, rest, STATUS_FIVE);
    }
  }

  lemma FiveBehind(text: string, rest: string)
    requires |text| == 7 && text[6] == ' ' && forall k :: 0 <= k < 7 && text[k] == 's' ==> k == 0 || k == 5
    requires rest != "" && Contains(text + rest, STATUS_FIVE)
    ensures rest[0] == '5' || Contains(rest, STATUS_FIVE)
  {
    var all := text + rest;
    var i := FiveAt(all);
    assert all[6] == text[6] && all[7] == rest[0];
    if i >= 7 {
      assert rest[i - 7..i - 7 + 8] == all[i..i + 8];
      ContainsAt(rest, STATUS_FIVE, i - 7);
    } else {
      assert all[i] == text[i];
    }
  }

  /** Behind the word "status" the part is there exactly if a 5 follows, or further back. */
  lemma FiveBehindStatus(rest: string)
    requires rest != ""
    ensures Contains(STATUS_TEXT + rest, STATUS_FIVE) <==> rest[0] == '5' || Contains(rest, STATUS_FIVE)
  {
    var all := STATUS_TEXT + rest;
    Letters();
    if Contains(all, STATUS_FIVE) {
      FiveBehind(STATUS_TEXT, rest);
    } else if rest[0] == '5' {
      assert all[..8] == STATUS_FIVE[..7] + [rest[0]] == STATUS_FIVE;
      ContainsAt(all, STATUS_FIVE, 0);
    } else if Contains(rest, STATUS_FIVE) {
      ContainsJoined(STATUS_TEXT, rest, STATUS_FIVE);
    }
  }

  lemma CodeInStatus(digits: string, body: string, code: string)
    requires AllDigits(digits) && AllDigits(code) && code != ""
    ensures Contains(INTRO + (STATUS_TEXT + (digits + (": " + body))), code) <==>
            Contains(digits, code) || Contains(body, code)
  {
    CodeBehindText(INTRO, STATUS_TEXT + (digits + (": " + body)), code);
    CodeBehindText(STATUS_TEXT, digits + (": " + body), code);
    CodeInNumberOrBehind(digits, ": " + body, code);
    CodeBehindText(": ", body, code);
  }

  lemma {:induction false} LeadingDigit(n: nat)
    requires n >= 10
    ensures Decimal(n) != "" && Decimal(n / 10) != "" && Decimal(n)[0] == Decimal(n / 10)[0]
    ensures |Decimal(n)| == |Decimal(n / 10)| + 1
  {
    DecimalDigits(n);
    DecimalDigits(n / 10);
  }

  lemma {:induction false} ThreeDigits(code: nat)
    requires 100 <= code <= 999
    ensures var d := Decimal(code); |d| == 3 && AllDigits(d) && (d[0] == '5' <==> 500 <= code <= 599)
  {
    DecimalDigits(code);
    LeadingDigit(code);
    LeadingDigit(code / 10);
    assert code / 10 / 10 == code / 100;
    OneDigit(code / 100);
  }

  lemma {:induction false} OneDigit(n: nat)
    requires n < 10
    ensures |Decimal(n)| == 1 && (Decimal(n)[0] == '5' <==> n == 5)
  {
  }

  lemma WholePart(s: string, part: string)
    requires Contains(s, part) && |s| == |part|
    ensures s == part
  {
    var i := ContainedAt(s, part);
  }

  lemma ServerErrorDigits(d: string)
    requires |d| == 3 && NamesServerError(d)
    ensures d[0] == '5'
  {
    if Contains(d, "500") { WholePart(d, "500"); }
    else if Contains(d, "502") { WholePart(d, "502"); }
    else if Contains(d, "503") { WholePart(d, "503"); }
    else { WholePart(d, "504"); }
  }

  /** The digits of a status code read like a server error's. */
  predicate LooksLikeServerError(code: nat) {
    var d := Decimal(code); (d != "" && d[0] == '5') || NamesServerError(d)
  }

  lemma ServerErrorsLookIt(code: nat)
    requires 100 <= code <= 999
    ensures LooksLikeServerError(code) <==> 500 <= code <= 599
  {
    ThreeDigits(code);
    if NamesServerError(Decimal(code)) { ServerErrorDigits(Decimal(code)); }
  }

  lemma {:induction false} DecimalNotEmpty(n: nat)
    ensures Decimal(n) != ""
  {
  }

  lemma StatusTransientIff(code: nat, body: string)
    ensures IsTransient(StatusMessage(code, body)) <==>
            LooksLikeServerError(code) || NamesServerError(body) || Contains(body, STATUS_FIVE)
  {
    var d := Decimal(code);
    DecimalDigits(code);
    DecimalNotEmpty(code);
    Letters();
    FiveBehindIntro(STATUS_TEXT + (d + (": " + body)));
    FiveBehindStatus(d + (": " + body));
    NoLetters(d);
    PartBehindText(d, ": " + body, STATUS_FIVE);
    PartBehindText(": ", body, STATUS_FIVE);
    CodeInStatus(d, body, "500");
    CodeInStatus(d, body, "502");
    CodeInStatus(d, body, "503");
    CodeInStatus(d, body, "504");
  }

  lemma NoLetters(digits: string)
    requires AllDigits(digits)
    ensures 's' !in digits
  {
  }
}
