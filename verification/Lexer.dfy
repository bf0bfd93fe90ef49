/**
 The tokenizer of the predicate language. Source text is a sequence of bytes, a byte being the
 character with the same number.
 */
module Lexer {
  import opened Prelude
  import opened Expressions

  datatype Token =
    | IdentTok(name: string)
    | NumberTok(lexeme: string)
    | TextTok(s: string)
    | BoolTok(b: bool)
    | DotTok
    | LParenTok
    | RParenTok
    | AndTok
    | OrTok
    | NotTok
    | ContainsTok
    | OpTok(op: CompareOp)

  datatype SpannedToken = SpannedToken(token: Token, position: nat)

  datatype Problem =
    | UnterminatedText
    | UnexpectedCharacter
    | InvalidNumber
    | UnexpectedToken
    | UnexpectedEnd
    | ExpectedRParen
    | ExpectedIdent
    | NonBooleanTerm
    | TrailingToken

  datatype ParseError = ParseError(problem: Problem, position: nat)

  /** One token and the number of bytes it takes. */
  datatype Lexed = Lexed(token: Token, length: nat)

  predicate IsSpace(c: char) {
    c == ' ' || c == '\t' || c == '\n' || c == '\r' || c as int == 12
  }

  predicate IsAlpha(c: char) {
    'a' <= c <= 'z' || 'A' <= c <= 'Z' || c == '_'
  }

  predicate IsWord(c: char) { IsAlpha(c) || IsDigit(c) }

  predicate IsNumeral(c: char) { IsDigit(c) || c == '.' }

  /** Length of the longest prefix whose characters satisfy `p`. */
  function Span(p: char -> bool, s: string): (n: nat)
    ensures n <= |s| && (forall i | 0 <= i < n :: p(s[i])) && (n < |s| ==> !p(s[n]))
  {
    if s == [] || !p(s[0]) then 0 else 1 + Span(p, s[1..])
  }

  function Unescape(c: char): char {
    if c == 'n' then '\n' else if c == 't' then '\t' else c
  }

  function Extend(text: string, n: nat, rest: Option<(string, nat)>): Option<(string, nat)> {
    if rest.None? then None else Some((text + rest.value.0, n + rest.value.1))
  }

  lemma ExtendTwice(a: string, m: nat, c: string, n: nat, rest: Option<(string, nat)>)
    ensures Extend(a, m, Extend(c, n, rest)) == Extend(a + c, m + n, rest)
    ensures Extend("", 0, rest) == rest
  {
    if rest.Some? {
      assert a + (c + rest.value.0) == a + c + rest.value.0;
      assert "" + rest.value.0 == rest.value.0;
    }
  }

  /** Text content up to the closing quote: the content and the bytes before the quote. */
  function ScanText(s: string): (r: Option<(string, nat)>)
    ensures r.Some? ==> r.value.1 < |s| && s[r.value.1] == '"'
  {
    if s == [] then None
    else if s[0] == '"' then Some(("", 0))
    else
      var n := if s[0] == '\\' && |s| > 1 then 2 else 1;
      var c := if n == 2 then Unescape(s[1]) else s[0];
      Extend([c], n, ScanText(s[n..]))
  }

  /** Rust reads a run of digits and dots as a number when it has at most one dot. */
  predicate ValidNumeral(lexeme: string) {
    forall i, j | 0 <= i < j < |lexeme| :: lexeme[i] != '.' || lexeme[j] != '.'
  }

  function WordToken(word: string): Token {
    if word == "and" then AndTok
    else if word == "or" then OrTok
    else if word == "not" then NotTok
    else if word == "contains" then ContainsTok
    else if word == "true" then BoolTok(true)
    else if word == "false" then BoolTok(false)
    else IdentTok(word)
  }

  predicate NextIs(s: string, c: char) { |s| > 1 && s[1] == c }

  /** The token at the front of `s`, which starts at byte `at` and is not white space. */
  function LexOne(s: string, at: nat): (r: Result<Lexed, ParseError>)
    requires s != [] && !IsSpace(s[0])
    ensures r.Ok? ==> 0 < r.value.length <= |s|
    ensures r.Err? ==> r.error.position == at
  {
    var c := s[0];
    if c == '(' then Ok(Lexed(LParenTok, 1))
    else if c == ')' then Ok(Lexed(RParenTok, 1))
    else if c == '.' then Ok(Lexed(DotTok, 1))
    else if c == '=' && NextIs(s, '=') then Ok(Lexed(OpTok(Eq), 2))
    else if c == '!' && NextIs(s, '=') then Ok(Lexed(OpTok(NotEq), 2))
    else if c == '<' && NextIs(s, '=') then Ok(Lexed(OpTok(LtEq), 2))
    else if c == '<' then Ok(Lexed(OpTok(Lt), 1))
    else if c == '>' && NextIs(s, '=') then Ok(Lexed(OpTok(GtEq), 2))
    else if c == '>' then Ok(Lexed(OpTok(Gt), 1))
    else if c == '"' then
      var text := ScanText(s[1..]);
      if text.None? then Err(ParseError(UnterminatedText, at))
      else Ok(Lexed(TextTok(text.value.0), text.value.1 + 2))
    else if IsDigit(c) || c == '-' then
      if c == '-' && !(|s| > 1 && IsDigit(s[1])) then Err(ParseError(UnexpectedCharacter, at))
      else
        var n := 1 + Span(IsNumeral, s[1..]);
        if ValidNumeral(s[..n]) then Ok(Lexed(NumberTok(s[..n]), n)) else Err(ParseError(InvalidNumber, at))
    else if IsAlpha(c) then
      var n := Span(IsWord, s);
      Ok(Lexed(WordToken(s[..n]), n))
    else Err(ParseError(UnexpectedCharacter, at))
  }

  type Tokens = Result<seq<SpannedToken>, ParseError>

  function Prepend(front: seq<SpannedToken>, rest: Tokens): Tokens {
    if rest.Ok? then Ok(front + rest.value) else rest
  }

  lemma PrependTwice(a: seq<SpannedToken>, c: seq<SpannedToken>, rest: Tokens)
    ensures Prepend(a, Prepend(c, rest)) == Prepend(a + c, rest)
    ensures Prepend([], rest) == rest
  {
    if rest.Ok? {
      assert a + (c + rest.value) == a + c + rest.value;
      assert [] + rest.value == rest.value;
    }
  }

  /** All tokens of `s`, which starts at byte `at`. */
  function Lex(s: string, at: nat): (r: Tokens)
    ensures r.Ok? ==> forall i | 0 <= i < |r.value| :: at <= r.value[i].position < at + |s|
    ensures r.Err? ==> at <= r.error.position < at + |s|
  {
    if s == [] then Ok([])
    else if IsSpace(s[0]) then Lex(s[1..], at + 1)
    else
      var one := LexOne(s, at);
      if one.Err? then Err(one.error)
      else Prepend([SpannedToken(one.value.token, at)], Lex(s[one.value.length..], at + one.value.length))
  }

  // ---------------------------------------------------------------- the loops

  method ScanSpan(p: char -> bool, src: string, start: nat) returns (end: nat)
    requires start <= |src|
    ensures end == start + Span(p, src[start..]) <= |src|
  {
    end := start;
    while end < |src| && p(src[end])
      invariant start <= end <= |src|
      invariant end + Span(p, src[end..]) == start + Span(p, src[start..])
    {
      assert src[end..][0] == src[end] && src[end..][1..] == src[end + 1..];
      end := end + 1;
    }
  }

  /** One turn of the text loop: the character it reads and the bytes that takes. */
  lemma TextStep(src: string, end: nat)
    requires end < |src| && src[end] != '"'
    ensures ScanText(src[end..]) ==
      if src[end] == '\\' && end + 1 < |src| then Extend([Unescape(src[end + 1])], 2, ScanText(src[end + 2..]))
      else Extend([src[end]], 1, ScanText(src[end + 1..]))
  {
  }

  /** The loop has read `text` from the first `end - start` bytes after `start`. */
  ghost predicate TextSoFar(src: string, start: nat, text: string, end: nat) {
    start <= end <= |src| && ScanText(src[start..]) == Extend(text, end - start, ScanText(src[end..]))
  }

  lemma TextTurn(src: string, start: nat, text: string, end: nat, c: char, n: nat)
    requires TextSoFar(src, start, text, end) && end + n <= |src|
    requires ScanText(src[end..]) == Extend([c], n, ScanText(src[end + n..]))
    ensures TextSoFar(src, start, text + [c], end + n)
  {
    ExtendTwice(text, end - start, [c], n, ScanText(src[end + n..]));
  }

  lemma TextStart(src: string, start: nat)
    requires start <= |src|
    ensures TextSoFar(src, start, "", start)
  {
    ExtendTwice("", 0, "", 0, ScanText(src[start..]));
  }

  lemma TextEnd(src: string, start: nat, text: string, end: nat)
    requires TextSoFar(src, start, text, end) && (end < |src| ==> src[end] == '"')
    ensures ScanText(src[start..]) == if end == |src| then None else Some((text, end - start))
  {
    assert text + "" == text;
  }

  /** Read one possibly escaped character. */
  method ReadChar(src: string, end: nat) returns (c: char, n: nat)
    requires end < |src| && src[end] != '"'
    ensures 0 < n && end + n <= |src|
    ensures ScanText(src[end..]) == Extend([c], n, ScanText(src[end + n..]))
  {
    TextStep(src, end);
    if src[end] == '\\' && end + 1 < |src| {
      c, n := Unescape(src[end + 1]), 2;
    } else {
      c, n := src[end], 1;
    }
  }

  /** Accumulate text content from byte `start`; `end` is the closing quote, or the end of input. */
  method ScanTextLoop(src: string, start: nat) returns (text: string, end: nat)
    requires start <= |src|
    ensures start <= end <= |src|
    ensures ScanText(src[start..]) == if end == |src| then None else Some((text, end - start))
  {
    text, end := "", start;
    TextStart(src, start);
    while end < |src| && src[end] != '"'
      invariant TextSoFar(src, start, text, end)
    {
      var c, n := ReadChar(src, end);
      TextTurn(src, start, text, end, c, n);
      text, end := text + [c], end + n;
    }
    TextEnd(src, start, text, end);
  }

  lemma LexSpace(src: string, i: nat)
    requires i < |src| && IsSpace(src[i])
    ensures Lex(src[i..], i) == Lex(src[i + 1..], i + 1)
  {
  }

  lemma LexToken(src: string, i: nat)
    requires i < |src| && !IsSpace(src[i])
    ensures Lex(src[i..], i) == match LexOne(src[i..], i)
      case Err(e) => Err(e)
      case Ok(one) => Prepend([SpannedToken(one.token, i)], Lex(src[i + one.length..], i + one.length))
  {
  }

  /** The loop has read the tokens `out` from the first `i` bytes. */
  ghost predicate LexSoFar(src: string, out: seq<SpannedToken>, i: nat) {
    i <= |src| && Lex(src, 0) == Prepend(out, Lex(src[i..], i))
  }

  lemma LexStart(src: string)
    ensures LexSoFar(src, [], 0)
  {
    assert src[0..] == src;
    PrependTwice([], [], Lex(src, 0));
  }

  lemma {:induction false} LexTurn(src: string, out: seq<SpannedToken>, t: SpannedToken, i: nat, next: nat)
    requires LexSoFar(src, out, i) && next <= |src| && Lex(src[i..], i) == Prepend([t], Lex(src[next..], next))
    ensures LexSoFar(src, out + [t], next)
  {
    PrependTwice(out, [t], Lex(src[next..], next));
  }

  lemma LexEnd(src: string, out: seq<SpannedToken>)
    requires LexSoFar(src, out, |src|)
    ensures Lex(src, 0) == Ok(out)
  {
    assert src[|src|..] == [];
    assert out + [] == out;
  }

  method Tokenize(src: string) returns (r: Tokens)
    ensures r == Lex(src, 0)
  {
    var out: seq<SpannedToken> := [];
    var i := 0;
    LexStart(src);
    while i < |src|
      invariant LexSoFar(src, out, i)
    {
      if IsSpace(src[i]) {
        LexSpace(src, i);
        i := i + 1;
      } else {
        var one := NextToken(src, i);
        if one.Err? {
          return Err(one.error);
        }
        LexTurn(src, out, one.value.0, i, one.value.1);
        out, i := out + [one.value.0], one.value.1;
      }
    }
    LexEnd(src, out);
    return Ok(out);
  }

  /** The token that starts at byte `i`, and where it ends. */
  method NextToken(src: string, i: nat) returns (r: Result<(SpannedToken, nat), ParseError>)
    requires i < |src| && !IsSpace(src[i])
    ensures r.Err? ==> Lex(src[i..], i) == Err(r.error)
    ensures r.Ok? ==> i < r.value.1 <= |src|
    ensures r.Ok? ==> Lex(src[i..], i) == Prepend([r.value.0], Lex(src[r.value.1..], r.value.1))
  {
    LexToken(src, i);
    var one := TokenizeOne(src, i);
    if one.Err? { return Err(one.error); }
    return Ok((SpannedToken(one.value.token, i), i + one.value.length));
  }

  method TokenizeOne(src: string, i: nat) returns (r: Result<Lexed, ParseError>)
    requires i < |src| && !IsSpace(src[i])
    ensures r == LexOne(src[i..], i)
  {
    var c := src[i];
    var next := if i + 1 < |src| then src[i + 1] else ' ';
    assert src[i..][0] == c && src[i..][1..] == src[i + 1..];
    if c == '(' { return Ok(Lexed(LParenTok, 1)); }
    if c == ')' { return Ok(Lexed(RParenTok, 1)); }
    if c == '.' { return Ok(Lexed(DotTok, 1)); }
    if c == '=' && next == '=' { return Ok(Lexed(OpTok(Eq), 2)); }
    if c == '!' && next == '=' { return Ok(Lexed(OpTok(NotEq), 2)); }
    if c == '<' {
      return Ok(if next == '=' then Lexed(OpTok(LtEq), 2) else Lexed(OpTok(Lt), 1));
    }
    if c == '>' {
      return Ok(if next == '=' then Lexed(OpTok(GtEq), 2) else Lexed(OpTok(Gt), 1));
    }
    if c == '"' {
      var text, end := ScanTextLoop(src, i + 1);
      if end == |src| {
        return Err(ParseError(UnterminatedText, i));
      }
      return Ok(Lexed(TextTok(text), end + 1 - i));
    }
    if IsDigit(c) || c == '-' {
      if c == '-' && !(i + 1 < |src| && IsDigit(src[i + 1])) {
        return Err(ParseError(UnexpectedCharacter, i));
      }
      var end := ScanSpan(IsNumeral, src, i + 1);
      assert src[i..][..end - i] == src[i..end];
      if !ValidNumeral(src[i..end]) {
        return Err(ParseError(InvalidNumber, i));
      }
      return Ok(Lexed(NumberTok(src[i..end]), end - i));
    }
    if IsAlpha(c) {
      var end := ScanSpan(IsWord, src, i);
      assert src[i..][..end - i] == src[i..end];
      return Ok(Lexed(WordToken(src[i..end]), end - i));
    }
    return Err(ParseError(UnexpectedCharacter, i));
  }
}
