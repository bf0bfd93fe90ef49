/** What the tokenizer reads and refuses, against the spelling of tokens. */
module LexLaws {
  import opened Prelude
  import opened Expressions
  import opened Lexer
  import opened Printer
  import opened RoundTrip
  import opened LexBytes

  // ---------------------------------------------------------------- blanks

  /** Blank, tab, line feed, form feed and carriage return separate tokens. */
  lemma {:induction false} BlanksAre(c: char, rest: string, at: nat)
    ensures IsSpace(c) <==> c as int in {32, 9, 10, 12, 13}
    ensures c as int in {32, 9, 10, 12, 13} ==> Lex([c] + rest, at) == Lex(rest, at + 1)
  {
    assert ([c] + rest)[1..] == rest;
  }

  /** The ten digits, and the letters of ASCII with the underscore. */
  lemma {:induction false} DigitsAndLettersAre(c: char)
    ensures IsDigit(c) <==> c in {'0', '1', '2', '3', '4', '5', '6', '7', '8', '9'}
    ensures IsAlpha(c) <==> 65 <= c as int <= 90 || 97 <= c as int <= 122 || c as int == 95
  {
  }

  // ---------------------------------------------------------------- spelling

  /** A token other than text is read off its own spelling. */
  lemma {:induction false} TokenIsSpelled(s: string, at: nat)
    requires s != [] && !IsSpace(s[0]) && LexOne(s, at).Ok? && !LexOne(s, at).value.token.TextTok?
    ensures s[..LexOne(s, at).value.length] == TokenText(LexOne(s, at).value.token)
  {
  }

  /** Numbers and words are read as far as they go. */
  lemma {:induction false} LongestIsRead(s: string, at: nat)
    requires s != [] && !IsSpace(s[0]) && LexOne(s, at).Ok? && LexOne(s, at).value.length < |s|
    ensures var one := LexOne(s, at).value;
      && (one.token.NumberTok? ==> !IsDigit(s[one.length]) && s[one.length] != '.')
      && (IsAlpha(s[0]) ==> !IsAlpha(s[one.length]) && !IsDigit(s[one.length]))
  {
    if IsDigit(s[0]) || s[0] == '-' { assert s[1..][Span(IsNumeral, s[1..])] == s[1 + Span(IsNumeral, s[1..])]; }
  }

  /** Two dots in a run of digits and dots that starts behind the first character. */
  ghost predicate TwoDots(s: string) {
    exists i: nat, j: nat :: DotsAt(s, i, j)
  }

  ghost predicate DotsAt(s: string, i: nat, j: nat) {
    0 < i < j < |s| && s[i] == s[j] == '.' && forall k | 0 < k < j :: IsDigit(s[k]) || s[k] == '.'
  }

  lemma NumeralRun(s: string, n: nat)
    requires s != [] && n == 1 + Span(IsNumeral, s[1..])
    ensures n <= |s| && (forall k | 0 < k < n :: IsNumeral(s[k])) && (n < |s| ==> !IsNumeral(s[n]))
  {
    forall k | 0 < k < n ensures IsNumeral(s[k]) { assert s[k] == s[1..][k - 1]; }
    if n < |s| { assert s[1..][n - 1] == s[n]; }
  }

  lemma InvalidHasDots(s: string, n: nat)
    requires s != [] && s[0] != '.' && n == 1 + Span(IsNumeral, s[1..]) && !ValidNumeral(s[..n])
    ensures TwoDots(s)
  {
    NumeralRun(s, n);
    var i, j :| 0 <= i < j < |s[..n]| && s[..n][i] == s[..n][j] == '.';
    assert DotsAt(s, i, j);
  }

  lemma DotsAreInvalid(s: string, n: nat, i: nat, j: nat)
    requires s != [] && n == 1 + Span(IsNumeral, s[1..]) && DotsAt(s, i, j)
    ensures !ValidNumeral(s[..n])
  {
    NumeralRun(s, n);
    assert forall k | 0 < k <= j :: IsNumeral(s[k]);
    assert s[..n][i] == s[..n][j] == '.';
  }

  /** A number is refused exactly when its run of digits and dots has two dots. */
  lemma {:induction false} NumberIsRefusedIff(s: string, at: nat)
    requires s != [] && (IsDigit(s[0]) || (s[0] == '-' && |s| > 1 && IsDigit(s[1])))
    ensures LexOne(s, at) == Err(ParseError(InvalidNumber, at)) <==> TwoDots(s)
  {
    var n := 1 + Span(IsNumeral, s[1..]);
    if !ValidNumeral(s[..n]) { InvalidHasDots(s, n); }
    if i: nat, j: nat :| DotsAt(s, i, j) { DotsAreInvalid(s, n, i, j); }
  }

  /** No token starts here: not a quote, and no written token stands in front. */
  ghost predicate NoTokenStarts(s: string) {
    s != [] && s[0] != '"' && forall t | Writable(t) && !t.TextTok? :: !(TokenText(t) <= s)
  }

  lemma WordStarts(s: string, t: Token)
    requires s != [] && Writable(t) && !t.TextTok? && TokenText(t) <= s
    ensures TokenText(t) != "" && TokenText(t)[0] == s[0]
    ensures t.IdentTok? || t in {AndTok, OrTok, NotTok, ContainsTok, BoolTok(true), BoolTok(false)} ==> IsAlpha(s[0])
    ensures t.NumberTok? ==> IsDigit(s[0]) || (s[0] == '-' && |s| > 1 && IsDigit(s[1]))
  {
    TokenBack(t, "", 0);
    if t.NumberTok? && s[0] == '-' { assert TokenText(t)[1] == s[1]; }
  }

  lemma NothingFits(s: string, at: nat, t: Token)
    requires s != [] && !IsSpace(s[0]) && LexOne(s, at) == Err(ParseError(UnexpectedCharacter, at))
    requires Writable(t) && !t.TextTok?
    ensures !(TokenText(t) <= s)
  {
    assert TokenText(t) <= s && |TokenText(t)| > 1 ==> TokenText(t)[1] == s[1];
    if TokenText(t) <= s { WordStarts(s, t); }
  }

  /** A character is unexpected exactly where no token starts. */
  lemma {:induction false} UnexpectedIff(s: string, at: nat)
    requires s != [] && !IsSpace(s[0])
    ensures LexOne(s, at) == Err(ParseError(UnexpectedCharacter, at)) <==> NoTokenStarts(s)
  {
    if LexOne(s, at) == Err(ParseError(UnexpectedCharacter, at)) {
      forall t | Writable(t) && !t.TextTok? ensures !(TokenText(t) <= s) { NothingFits(s, at, t); }
    } else if s[0] != '"' {
      SomethingFits(s, at);
    }
  }

  lemma SomethingFits(s: string, at: nat)
    requires s != [] && !IsSpace(s[0]) && s[0] != '"' && LexOne(s, at) != Err(ParseError(UnexpectedCharacter, at))
    ensures !NoTokenStarts(s)
  {
    if IsDigit(s[0]) || s[0] == '-' {
      var l := if s[0] == '-' then s[..2] else s[..1];
      assert IsNumber(l) && Writable(NumberTok(l)) && TokenText(NumberTok(l)) <= s;
    } else {
      var t := LexOne(s, at).value.token;
      TokenIsSpelled(s, at);
      if IsAlpha(s[0]) { assert s[..Span(IsWord, s)] != []; }
      assert Writable(t) && TokenText(t) <= s;
    }
  }

  // ---------------------------------------------------------------- text

  /** What stands behind the backslash for a character that is written with one. */
  function EscapeOf(c: char): Option<char> {
    if c == '\n' then Some('n') else if c == '\t' then Some('t')
    else if c == '"' || c == '\\' then Some(c) else None
  }

  function Written(c: char): string {
    if EscapeOf(c).Some? then ['\\', EscapeOf(c).value] else [c]
  }

  function WithEscapes(text: string): string {
    if text == [] then [] else Written(text[0]) + WithEscapes(text[1..])
  }

  lemma WrittenIsRead(c: char, tail: string)
    ensures ScanText(Written(c) + tail) == Extend([c], |Written(c)|, ScanText(tail))
  {
    if EscapeOf(c).Some? { ScanEscape(EscapeOf(c).value, tail); } else { assert ([c] + tail)[1..] == tail; }
  }

  /** Written with escapes for line feeds, tabs, quotes and backslashes a text is read back, up to the quote
      that closes it. */
  lemma {:induction false} EscapesAreRead(text: string, rest: string)
    ensures ScanText(WithEscapes(text) + ("\"" + rest)) == Some((text, |WithEscapes(text)|))
  {
    if text == [] {
      assert WithEscapes(text) + ("\"" + rest) == "\"" + rest;
    } else {
      var tail := WithEscapes(text[1..]) + ("\"" + rest);
      EscapesAreRead(text[1..], rest);
      WrittenIsRead(text[0], tail);
      Associate(Written(text[0]), WithEscapes(text[1..]), "\"" + rest);
      OneMoreRead(text, ScanText(tail), |Written(text[0])|);
    }
  }

  lemma OneMoreRead(text: string, rest: Option<(string, nat)>, n: nat)
    requires text != [] && rest == Some((text[1..], |WithEscapes(text[1..])|)) && n == |Written(text[0])|
    ensures Extend([text[0]], n, rest) == Some((text, |WithEscapes(text)|))
  {
    assert [text[0]] + text[1..] == text;
  }

  /** Any other character behind a backslash stands for itself. */
  lemma {:induction false} OtherEscapes(c: char, tail: string)
    requires c != 'n' && c != 't'
    ensures ScanText(['\\', c] + tail) == Extend([c], 2, ScanText(tail))
  {
    ScanEscape(c, tail);
  }
}
