/** Tokenizing the UTF-8 bytes of a text gives the tokens of the text, text literals byte by byte. */
module LexBytes {
  import opened Prelude
  import opened Expressions
  import opened Lexer
  import opened Grammar
  import opened Printer
  import opened RoundTrip

  // ---------------------------------------------------------------- prefixes of an encoded text

  predicate IsAscii(c: char) { (c as int) < 128 }

  predicate HighBytes(s: string) {
    forall i | 0 <= i < |s| :: !IsAscii(s[i])
  }

  /** The number of bytes of the first `n` characters. */
  function Width(s: string, n: nat): nat
    requires n <= |s|
  {
    |Encode(s[..n])|
  }

  lemma EncodeSplit(s: string, n: nat)
    requires n <= |s|
    ensures Width(s, n) <= |Encode(s)|
    ensures Encode(s) == Encode(s[..n]) + Encode(s[n..])
    ensures Encode(s)[Width(s, n)..] == Encode(s[n..])
  {
    assert s == s[..n] + s[n..];
    EncodeJoin(s[..n], s[n..]);
  }

  lemma WidthOfTwo(s: string, n: nat)
    requires 1 <= n <= |s|
    ensures Width(s, n) == |EncodeChar(s[0])| + Width(s[1..], n - 1)
  {
    assert s[..n][0] == s[0] && s[..n][1..] == s[1..][..n - 1];
    EncodeCons(s[..n]);
  }

  lemma FirstByte(s: string)
    requires s != []
    ensures Encode(s) != []
    ensures if IsAscii(s[0]) then Encode(s)[0] == s[0] && Encode(s)[1..] == Encode(s[1..]) else !IsAscii(Encode(s)[0])
  {
  }

  lemma SecondByte(s: string, c: char)
    requires s != [] && IsAscii(s[0]) && IsAscii(c)
    ensures NextIs(Encode(s), c) <==> NextIs(s, c)
  {
    FirstByte(s);
    if |s| > 1 {
      FirstByte(s[1..]);
      assert Encode(s)[1] == Encode(s)[1..][0];
    } else {
      assert s[1..] == [] && |Encode(s)| == 1;
    }
  }

  // ---------------------------------------------------------------- runs of ASCII characters

  lemma {:induction false} SpanBytes(p: char -> bool, s: string)
    requires forall c: char :: p(c) ==> IsAscii(c)
    ensures Span(p, Encode(s)) == Span(p, s) && Encode(s)[..Span(p, s)] == s[..Span(p, s)]
    ensures Width(s, Span(p, s)) == Span(p, s)
  {
    if s != [] {
      FirstByte(s);
      if p(s[0]) {
        SpanBytes(p, s[1..]);
        SpanMore(p, s);
      }
    }
  }

  lemma SpanMore(p: char -> bool, s: string)
    requires s != [] && p(s[0]) && IsAscii(s[0]) && (forall c: char :: p(c) ==> IsAscii(c))
    requires var n := Span(p, s[1..]);
      Span(p, Encode(s[1..])) == n && Encode(s[1..])[..n] == s[1..][..n] && Width(s[1..], n) == n
    ensures Span(p, Encode(s)) == Span(p, s) && Encode(s)[..Span(p, s)] == s[..Span(p, s)]
    ensures Width(s, Span(p, s)) == Span(p, s)
  {
    var n, t := Span(p, s[1..]), Encode(s[1..]);
    EncodeCons(s);
    assert s == [s[0]] + s[1..];
    SpanCons(p, s[0], s[1..]);
    SpanCons(p, s[0], t);
    WidthOfTwo(s, 1 + n);
  }

  lemma SpanCons(p: char -> bool, c: char, t: string)
    requires p(c)
    ensures var n := Span(p, t); Span(p, [c] + t) == 1 + n && ([c] + t)[..1 + n] == [c] + t[..n]
  {
    assert ([c] + t)[1..] == t;
  }

  // ---------------------------------------------------------------- text literals

  function ScanBytes(s: string, r: Option<(string, nat)>): Option<(string, nat)>
    requires r.Some? ==> r.value.1 <= |s|
  {
    if r.None? then None else Some((Encode(r.value.0), Width(s, r.value.1)))
  }

  lemma {:induction false} ScanHigh(high: string, rest: string)
    requires HighBytes(high)
    ensures ScanText(high + rest) == Extend(high, |high|, ScanText(rest))
  {
    if high == [] {
      assert high + rest == rest;
      ExtendTwice("", 0, "", 0, ScanText(rest));
    } else {
      var s := high + rest;
      ScanHigh(high[1..], rest);
      assert s[0] == high[0] && s[1..] == high[1..] + rest;
      ExtendTwice([high[0]], 1, high[1..], |high| - 1, ScanText(rest));
      assert [high[0]] + high[1..] == high;
    }
  }

  /** One turn of the scan: `n` characters, standing for `c`. */
  lemma TurnBytes(s: string, n: nat, c: char, r: Option<(string, nat)>)
    requires 1 <= n <= |s| && (r.Some? ==> r.value.1 <= |s| - n)
    ensures var after := Extend([c], n, r); after.Some? ==> after.value.1 <= |s|
    ensures ScanBytes(s, Extend([c], n, r)) == Extend(EncodeChar(c), Width(s, n), ScanBytes(s[n..], r))
  {
    if r.Some? {
      var (text, k) := r.value;
      assert s[..n + k] == s[..n] + s[n..][..k];
      EncodeJoin(s[..n], s[n..][..k]);
      assert ([c] + text)[1..] == text;
    }
  }

  lemma {:induction false} TextBytes(s: string)
    ensures ScanText(Encode(s)) == ScanBytes(s, ScanText(s))
  {
    if s == [] {
    } else if s[0] == '"' {
      FirstByte(s);
      assert s[..0] == [];
    } else if s[0] == '\\' && |s| > 1 {
      TextBytes(s[2..]);
      EscapedTurn(s);
    } else {
      TextBytes(s[1..]);
      PlainTurn(s);
    }
  }

  lemma PlainTurn(s: string)
    requires s != [] && s[0] != '"' && !(s[0] == '\\' && |s| > 1)
    requires ScanText(Encode(s[1..])) == ScanBytes(s[1..], ScanText(s[1..]))
    ensures ScanText(Encode(s)) == ScanBytes(s, ScanText(s))
  {
    TurnBytes(s, 1, s[0], ScanText(s[1..]));
    OneWide(s);
    if IsAscii(s[0]) {
      FirstByte(s);
      if s[0] == '\\' { assert s[1..] == [] && |Encode(s)| == 1; }
    } else {
      EncodeCons(s);
      ScanHigh(EncodeChar(s[0]), Encode(s[1..]));
    }
  }

  lemma OneWide(s: string)
    requires s != []
    ensures Width(s, 1) == |EncodeChar(s[0])|
  {
    assert s[..1] == [s[0]] && [s[0]][1..] == [];
    EncodeCons([s[0]]);
    assert EncodeChar(s[0]) + [] == EncodeChar(s[0]);
  }

  lemma EscapedTurn(s: string)
    requires |s| > 1 && s[0] == '\\'
    requires ScanText(Encode(s[2..])) == ScanBytes(s[2..], ScanText(s[2..]))
    ensures ScanText(Encode(s)) == ScanBytes(s, ScanText(s))
  {
    var b, c := Encode(s), s[1];
    TurnBytes(s, 2, Unescape(c), ScanText(s[2..]));
    FirstByte(s);
    EncodeCons(s[1..]);
    assert s[1..][1..] == s[2..] && s[1..][0] == c;
    assert b == ['\\'] + (EncodeChar(c) + Encode(s[2..]));
    TwoWide(s);
    EscapedBytes(c, Encode(s[2..]));
  }

  lemma TwoWide(s: string)
    requires |s| > 1 && s[0] == '\\'
    ensures Width(s, 2) == 1 + |EncodeChar(s[1])|
  {
    WidthOfTwo(s, 2);
    OneWide(s[1..]);
  }

  /** A backslash takes the first byte of the character behind it; the others follow as they are. */
  lemma EscapedBytes(c: char, rest: string)
    ensures ScanText(['\\'] + (EncodeChar(c) + rest))
         == Extend(EncodeChar(Unescape(c)), 1 + |EncodeChar(c)|, ScanText(rest))
  {
    if IsAscii(c) {
      assert ['\\'] + ([c] + rest) == ['\\', c] + rest;
      ScanEscape(c, rest);
    } else {
      EscapedHigh(EncodeChar(c), rest);
    }
  }

  lemma EscapedHigh(high: string, rest: string)
    requires high != [] && HighBytes(high)
    ensures ScanText(['\\'] + (high + rest)) == Extend(high, 1 + |high|, ScanText(rest))
  {
    var tail := high[1..] + rest;
    assert ['\\'] + (high + rest) == ['\\', high[0]] + tail;
    ScanEscape(high[0], tail);
    ScanHigh(high[1..], rest);
    ExtendTwice([high[0]], 2, high[1..], |high| - 1, ScanText(rest));
    assert [high[0]] + high[1..] == high;
  }

  lemma ScanEscape(c: char, tail: string)
    ensures ScanText(['\\', c] + tail) == Extend([Unescape(c)], 2, ScanText(tail))
  {
    var s := ['\\', c] + tail;
    assert s[2..] == tail;
  }

  // ---------------------------------------------------------------- one token

  /** The token at the front, if there is one. */
  ghost predicate Reads(s: string, at: nat, one: Option<Lexed>) {
    && s != [] && !IsSpace(s[0]) && LexOne(s, at).Ok? == one.Some?
    && (one.Some? ==> LexOne(s, at).value == one.value)
  }

  /** `n` characters of the text are `w` bytes. */
  ghost predicate Meets(s: string, n: nat, w: nat) {
    n <= |s| && w <= |Encode(s)| && Encode(s)[w..] == Encode(s[n..])
  }

  /** What is read off the text and off its bytes. */
  ghost predicate Pair(s: string, one: Option<Lexed>, two: Option<Lexed>) {
    one.Some? == two.Some?
    && (one.Some? ==> two.value.token == TokenBytes(one.value.token) && Meets(s, one.value.length, two.value.length))
  }

  lemma MeetsWidth(s: string, n: nat)
    requires n <= |s|
    ensures Meets(s, n, Width(s, n))
  {
    EncodeSplit(s, n);
  }

  lemma MeetsCons(c: char, rest: string, n: nat, w: nat)
    requires IsAscii(c) && Meets(rest, n, w)
    ensures Meets([c] + rest, n + 1, w + 1) && Encode([c] + rest) == [c] + Encode(rest)
  {
    var s := [c] + rest;
    assert s[0] == c && s[1..] == rest && s[n + 1..] == rest[n..];
    EncodeCons(s);
    assert ([c] + Encode(rest))[w + 1..] == Encode(rest)[w..];
  }

  function Quoted(text: Option<(string, nat)>): Option<Lexed> {
    if text.None? then None else Some(Lexed(TextTok(text.value.0), text.value.1 + 2))
  }

  lemma QuotedIs(rest: string, at: nat)
    ensures Reads(['"'] + rest, at, Quoted(ScanText(rest)))
  {
    assert (['"'] + rest)[1..] == rest;
  }

  lemma QuotedPair(rest: string)
    ensures Pair(['"'] + rest, Quoted(ScanText(rest)), Quoted(ScanText(Encode(rest))))
  {
    var text := ScanText(rest);
    TextBytes(rest);
    if text.Some? {
      var n, w := text.value.1, Width(rest, text.value.1);
      QuoteMeets(rest, n);
      MeetsCons('"', rest, n + 1, w + 1);
      PairMeets(['"'] + rest, Lexed(TextTok(text.value.0), n + 2), Lexed(TextTok(Encode(text.value.0)), w + 2));
    }
  }

  lemma PairMeets(s: string, one: Lexed, two: Lexed)
    requires Meets(s, one.length, two.length) && two.token == TokenBytes(one.token)
    ensures Pair(s, Some(one), Some(two))
  {
  }

  /** The closing quote is one byte. */
  lemma QuoteMeets(rest: string, n: nat)
    requires n < |rest| && rest[n] == '"'
    ensures Meets(rest, n + 1, Width(rest, n) + 1)
  {
    EncodeSplit(rest, n);
    FirstByte(rest[n..]);
    assert rest[n..][1..] == rest[n + 1..];
    assert Encode(rest)[Width(rest, n) + 1..] == Encode(rest)[Width(rest, n)..][1..];
  }

  function Numeral(c: char, rest: string): Option<Lexed> {
    var n := Span(IsNumeral, rest);
    if (c == '-' && (rest == [] || !IsDigit(rest[0]))) || !ValidNumeral([c] + rest[..n]) then None
    else Some(Lexed(NumberTok([c] + rest[..n]), n + 1))
  }

  lemma NumeralIs(c: char, rest: string, at: nat)
    requires IsDigit(c) || c == '-'
    ensures Reads([c] + rest, at, Numeral(c, rest))
  {
    var s := [c] + rest;
    assert s[1..] == rest;
    assert s[..1 + Span(IsNumeral, rest)] == [c] + rest[..Span(IsNumeral, rest)];
  }

  lemma NumeralPair(c: char, rest: string)
    requires IsAscii(c)
    ensures Pair([c] + rest, Numeral(c, rest), Numeral(c, Encode(rest)))
  {
    var n := Span(IsNumeral, rest);
    SpanBytes(IsNumeral, rest);
    SameNumeral(c, rest);
    MeetsWidth(rest, n);
    MeetsCons(c, rest, n, n);
  }

  lemma SameNumeral(c: char, rest: string)
    requires Span(IsNumeral, Encode(rest)) == Span(IsNumeral, rest)
    requires Encode(rest)[..Span(IsNumeral, rest)] == rest[..Span(IsNumeral, rest)]
    ensures Numeral(c, Encode(rest)) == Numeral(c, rest)
  {
    if rest != [] { FirstByte(rest); }
  }

  function Word(s: string): Option<Lexed> {
    var n := Span(IsWord, s);
    Some(Lexed(WordToken(s[..n]), n))
  }

  lemma WordIs(s: string, at: nat)
    requires s != [] && IsAlpha(s[0])
    ensures Reads(s, at, Word(s))
  {
  }

  lemma WordPair(s: string)
    ensures Pair(s, Word(s), Word(Encode(s)))
  {
    var n := Span(IsWord, s);
    SpanBytes(IsWord, s);
    MeetsWidth(s, n);
    SameWord(Encode(s), s);
    WordIsNoText(s[..n]);
    PairMeets(s, Lexed(WordToken(s[..n]), n), Lexed(WordToken(s[..n]), n));
  }

  lemma SameWord(b: string, s: string)
    requires Span(IsWord, b) == Span(IsWord, s) && b[..Span(IsWord, s)] == s[..Span(IsWord, s)]
    ensures Word(b) == Word(s)
  {
  }

  lemma WordIsNoText(word: string)
    ensures TokenBytes(WordToken(word)) == WordToken(word)
  {
  }

  /** Brackets, dots and operators, of which `two` is the longer one. */
  function Sign(c: char, two: bool): Option<Lexed> {
    if c == '(' then Some(Lexed(LParenTok, 1))
    else if c == ')' then Some(Lexed(RParenTok, 1))
    else if c == '.' then Some(Lexed(DotTok, 1))
    else if c == '=' && two then Some(Lexed(OpTok(Eq), 2))
    else if c == '!' && two then Some(Lexed(OpTok(NotEq), 2))
    else if c == '<' then Some(if two then Lexed(OpTok(LtEq), 2) else Lexed(OpTok(Lt), 1))
    else if c == '>' then Some(if two then Lexed(OpTok(GtEq), 2) else Lexed(OpTok(Gt), 1))
    else None
  }

  predicate Signlike(c: char) {
    !IsSpace(c) && c != '"' && c != '-' && !IsDigit(c) && !IsAlpha(c)
  }

  lemma SignIs(s: string, at: nat)
    requires s != [] && Signlike(s[0])
    ensures Reads(s, at, Sign(s[0], NextIs(s, '=')))
  {
  }

  lemma SignPair(s: string)
    requires s != [] && IsAscii(s[0])
    ensures var one := Sign(s[0], NextIs(s, '=')); Pair(s, one, one)
  {
    MeetsAscii(s, 1);
    if NextIs(s, '=') { MeetsAscii(s, 2); }
  }

  lemma {:induction false} MeetsAscii(s: string, n: nat)
    requires n <= |s| && forall i | 0 <= i < n :: IsAscii(s[i])
    ensures Meets(s, n, n)
  {
    if n == 0 {
      assert s[0..] == s && Encode(s)[0..] == Encode(s);
    } else {
      MeetsAscii(s[1..], n - 1);
      MeetsCons(s[0], s[1..], n - 1, n - 1);
      assert s == [s[0]] + s[1..];
    }
  }

  lemma SignRead(s: string, at: nat, to: nat) returns (one: Option<Lexed>)
    requires s != [] && Signlike(s[0])
    ensures Reads(s, at, one) && Reads(Encode(s), to, one) && Pair(s, one, one)
  {
    one := Sign(s[0], NextIs(s, '='));
    FirstByte(s);
    SignIs(s, at);
    SignIs(Encode(s), to);
    if IsAscii(s[0]) {
      SecondByte(s, '=');
      SignPair(s);
    }
  }

  /** One token of the bytes is the token of the text. */
  lemma OneBytes(s: string, at: nat, to: nat) returns (one: Option<Lexed>, two: Option<Lexed>)
    requires s != [] && !IsSpace(s[0])
    ensures Reads(s, at, one) && Reads(Encode(s), to, two) && Pair(s, one, two)
    ensures one.Some? ==> 0 < one.value.length <= |s|
  {
    var c, rest := s[0], s[1..];
    assert s == [c] + rest;
    EncodeCons(s);
    if c == '"' {
      one, two := Quoted(ScanText(rest)), Quoted(ScanText(Encode(rest)));
      QuotedIs(rest, at);
      QuotedIs(Encode(rest), to);
      QuotedPair(rest);
    } else if IsDigit(c) || c == '-' {
      one, two := Numeral(c, rest), Numeral(c, Encode(rest));
      NumeralIs(c, rest, at);
      NumeralIs(c, Encode(rest), to);
      NumeralPair(c, rest);
    } else if IsAlpha(c) {
      one, two := Word(s), Word(Encode(s));
      WordIs(s, at);
      WordIs(Encode(s), to);
      WordPair(s);
    } else {
      one := SignRead(s, at, to);
      two := one;
    }
  }

  // ---------------------------------------------------------------- all tokens

  /** The bytes `b` are tokenized exactly when the text `s` is, into its tokens. */
  ghost predicate SameTokens(b: string, to: nat, s: string, at: nat) {
    var bytes, text := Lex(b, to), Lex(s, at);
    bytes.Ok? == text.Ok? && (text.Ok? ==> Strip(bytes.value) == TokensBytes(Strip(text.value)))
  }

  lemma StripMore(t: SpannedToken, ts: seq<SpannedToken>)
    ensures Strip([t] + ts) == [t.token] + Strip(ts)
  {
  }

  lemma JoinTurn(b: string, to: nat, bTail: string, toNext: nat,
                 s: string, at: nat, tail: string, atNext: nat, t: Token)
    requires ReadsFirst(s, at, t, tail, atNext) && ReadsFirst(b, to, TokenBytes(t), bTail, toNext)
    requires SameTokens(bTail, toNext, tail, atNext)
    ensures SameTokens(b, to, s, at)
  {
    var bytes, text := Lex(bTail, toNext), Lex(tail, atNext);
    if text.Ok? {
      StripMore(SpannedToken(t, at), text.value);
      StripMore(SpannedToken(TokenBytes(t), to), bytes.value);
      BytesJoin([t], Strip(text.value));
      assert TokensBytes([t]) == [TokenBytes(t)];
    }
  }

  lemma SpaceTurn(s: string, at: nat, to: nat)
    requires s != [] && IsSpace(s[0]) && SameTokens(Encode(s[1..]), to + 1, s[1..], at + 1)
    ensures SameTokens(Encode(s), to, s, at)
  {
    FirstByte(s);
  }

  lemma ErrorTurn(b: string, to: nat, s: string, at: nat)
    requires Reads(s, at, None) && Reads(b, to, None)
    ensures SameTokens(b, to, s, at)
  {
  }

  lemma ReadsToken(s: string, at: nat, one: Lexed, t: Token, tail: string, next: nat)
    requires Reads(s, at, Some(one)) && t == one.token
    requires one.length <= |s| && tail == s[one.length..] && next == at + one.length
    ensures ReadsFirst(s, at, t, tail, next)
  {
    LexFirst(s, at, one.token, one.length);
  }

  lemma TokenTurn(b: string, to: nat, two: Lexed, bTail: string, toNext: nat,
                  s: string, at: nat, one: Lexed, tail: string, atNext: nat)
    requires Reads(s, at, Some(one)) && Reads(b, to, Some(two)) && two.token == TokenBytes(one.token)
    requires one.length <= |s| && tail == s[one.length..] && two.length <= |b| && bTail == b[two.length..]
    requires atNext == at + one.length && toNext == to + two.length && SameTokens(bTail, toNext, tail, atNext)
    ensures SameTokens(b, to, s, at)
  {
    ReadsToken(s, at, one, one.token, tail, atNext);
    ReadsToken(b, to, two, TokenBytes(one.token), bTail, toNext);
    JoinTurn(b, to, bTail, toNext, s, at, tail, atNext, one.token);
  }

  lemma ReadBoth(s: string, b: string, at: nat, to: nat)
    returns (found: bool, one: Lexed, two: Lexed, tail: string, bTail: string)
    requires s != [] && !IsSpace(s[0]) && b == Encode(s)
    ensures !found ==> Reads(s, at, None) && Reads(b, to, None)
    ensures found ==> Reads(s, at, Some(one)) && Reads(b, to, Some(two)) && two.token == TokenBytes(one.token)
    ensures found ==> one.length <= |s| && tail == s[one.length..] && two.length <= |b| && bTail == b[two.length..]
    ensures found ==> bTail == Encode(tail) && |tail| < |s|
  {
    var x, y := OneBytes(s, at, to);
    found := x.Some?;
    if found {
      one, two, tail, bTail := x.value, y.value, s[x.value.length..], b[y.value.length..];
    } else {
      one, two, tail, bTail := Lexed(DotTok, 1), Lexed(DotTok, 1), [], [];
    }
  }

  /** After the first token it is enough to look at the rest. */
  lemma NextTurn(s: string, b: string, at: nat, to: nat)
    returns (tail: string, bTail: string, atNext: nat, toNext: nat)
    requires s != [] && !IsSpace(s[0]) && b == Encode(s)
    ensures bTail == Encode(tail) && |tail| < |s|
    ensures SameTokens(bTail, toNext, tail, atNext) ==> SameTokens(b, to, s, at)
  {
    var found, one, two;
    found, one, two, tail, bTail := ReadBoth(s, b, at, to);
    atNext, toNext := at + one.length, to + two.length;
    if !found {
      tail, bTail := [], [];
      ErrorTurn(b, to, s, at);
    } else if SameTokens(bTail, toNext, tail, atNext) {
      TokenTurn(b, to, two, bTail, toNext, s, at, one, tail, atNext);
    }
  }

  lemma {:induction false} BytesTokens(s: string, b: string, at: nat, to: nat)
    requires b == Encode(s)
    ensures SameTokens(b, to, s, at)
    decreases |s|
  {
    if s == [] {
    } else if IsSpace(s[0]) {
      BytesTokens(s[1..], Encode(s[1..]), at + 1, to + 1);
      SpaceTurn(s, at, to);
    } else {
      var tail, bTail, atNext, toNext := NextTurn(s, b, at, to);
      BytesTokens(tail, bTail, atNext, toNext);
    }
  }
}
