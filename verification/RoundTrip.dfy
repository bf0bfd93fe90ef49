/** From a tree to bytes and back. */
module RoundTrip {
  import opened Prelude
  import opened Expressions
  import opened Lexer
  import opened Grammar
  import opened GrammarComplete
  import opened Printer

  // ---------------------------------------------------------------- UTF-8

  function EncodeChar(c: char): (r: string)
    ensures r != []
    ensures c as int < 128 ==> r == [c]
    ensures c as int >= 128 ==> |r| > 1 && forall i | 0 <= i < |r| :: 128 <= r[i] as int < 256
  {
    var n := c as int;
    if n < 0x80 then [c]
    else if n < 0x800 then [(0xC0 + n / 0x40) as char, (0x80 + n % 0x40) as char]
    else if n < 0x1_0000 then
      [(0xE0 + n / 0x1000) as char, (0x80 + n / 0x40 % 0x40) as char, (0x80 + n % 0x40) as char]
    else
      [(0xF0 + n / 0x4_0000) as char, (0x80 + n / 0x1000 % 0x40) as char,
       (0x80 + n / 0x40 % 0x40) as char, (0x80 + n % 0x40) as char]
  }

  /** The UTF-8 bytes of a text. */
  function Encode(s: string): string {
    if s == [] then [] else EncodeChar(s[0]) + Encode(s[1..])
  }

  predicate Ascii(s: string) {
    forall i | 0 <= i < |s| :: s[i] as int < 128
  }

  lemma EncodeCons(s: string)
    requires s != []
    ensures Encode(s) == EncodeChar(s[0]) + Encode(s[1..])
  {
  }

  lemma Associate(x: string, y: string, z: string)
    ensures x + (y + z) == x + y + z
  {
  }

  lemma {:induction false} EncodeJoin(a: string, b: string)
    ensures Encode(a + b) == Encode(a) + Encode(b)
  {
    if a == [] {
      assert a + b == b;
    } else {
      EncodeJoin(a[1..], b);
      EncodeCons(a);
      EncodeCons(a + b);
      assert (a + b)[1..] == a[1..] + b;
      Associate(EncodeChar(a[0]), Encode(a[1..]), Encode(b));
    }
  }

  lemma {:induction false} EncodeLength(s: string)
    ensures |Encode(s)| >= |s|
    ensures Encode(s) == s <==> Ascii(s)
    ensures !Ascii(s) ==> |Encode(s)| > |s|
  {
    if s != [] {
      EncodeLength(s[1..]);
      assert s == [s[0]] + s[1..];
      if Ascii(s[1..]) && s[0] as int < 128 {
        assert Ascii(s);
      } else {
        if Ascii(s) { assert Ascii(s[1..]); }
      }
    }
  }

  // ---------------------------------------------------------------- text of tokens

  function EscapeChar(c: char): string {
    if c == '"' || c == '\\' then ['\\', c] else [c]
  }

  function Escape(s: string): string {
    if s == [] then [] else EscapeChar(s[0]) + Escape(s[1..])
  }

  function OpText(op: CompareOp): string {
    match op
    case Eq => "==" case NotEq => "!=" case Lt => "<" case LtEq => "<=" case Gt => ">" case GtEq => ">="
    case Contains => "contains"
  }

  function TokenText(t: Token): string {
    match t
    case IdentTok(name) => name
    case NumberTok(l) => l
    case TextTok(s) => "\"" + Escape(s) + "\""
    case BoolTok(b) => if b then "true" else "false"
    case DotTok => "."
    case LParenTok => "("
    case RParenTok => ")"
    case AndTok => "and"
    case OrTok => "or"
    case NotTok => "not"
    case ContainsTok => "contains"
    case OpTok(op) => OpText(op)
  }

  /** Tokens that can be written down and read back. */
  predicate Writable(t: Token) {
    match t
    case IdentTok(name) => IsIdent(name)
    case NumberTok(l) => IsNumber(l)
    case OpTok(op) => op != Contains
    case _ => true
  }

  /** Each token followed by a blank. */
  function Render(ts: seq<Token>): string {
    if ts == [] then "" else TokenText(ts[0]) + " " + Render(ts[1..])
  }

  /** The text of a predicate. */
  function Text(e: Expression): string {
    Render(Print(e, 0))
  }

  // ---------------------------------------------------------------- reading tokens back

  lemma {:induction false} SpanOf(p: char -> bool, word: string, rest: string)
    requires forall i | 0 <= i < |word| :: p(word[i])
    requires rest == [] || !p(rest[0])
    ensures Span(p, word + rest) == |word|
  {
    if word == [] {
      assert word + rest == rest;
    } else {
      assert (word + rest)[1..] == word[1..] + rest;
      SpanOf(p, word[1..], rest);
    }
  }

  lemma ScanChar(c: char, tail: string)
    requires tail != []
    ensures ScanText(EscapeChar(c) + tail) == Extend([c], |EscapeChar(c)|, ScanText(tail))
  {
  }

  lemma {:induction false} ScanEscaped(s: string, rest: string)
    ensures ScanText(Escape(s) + "\"" + rest) == Some((s, |Escape(s)|))
  {
    var src := Escape(s) + "\"" + rest;
    if s == [] {
      assert src == "\"" + rest;
    } else {
      ScanEscaped(s[1..], rest);
      assert src == EscapeChar(s[0]) + (Escape(s[1..]) + "\"" + rest);
      ScanChar(s[0], Escape(s[1..]) + "\"" + rest);
      assert s == [s[0]] + s[1..];
    }
  }

  lemma WordBack(word: string, rest: string, at: nat)
    requires word != [] && IsAlpha(word[0]) && (forall i | 0 <= i < |word| :: IsWord(word[i]))
    ensures LexOne(word + " " + rest, at) == Ok(Lexed(WordToken(word), |word|))
  {
    var s := word + (" " + rest);
    assert s == word + " " + rest;
    SpanOf(IsWord, word, " " + rest);
    assert s[0] == word[0] && s[..|word|] == word;
  }

  lemma NumberBack(l: string, rest: string, at: nat)
    requires IsNumber(l)
    ensures !IsSpace(l[0]) && LexOne(l + " " + rest, at) == Ok(Lexed(NumberTok(l), |l|))
  {
    var s := l + " " + rest;
    assert s[1..] == l[1..] + (" " + rest);
    SpanOf(IsNumeral, l[1..], " " + rest);
    assert s[0] == l[0] && s[..|l|] == l && (|l| > 1 ==> s[1] == l[1]);
  }

  lemma TextBack(t: string, rest: string, at: nat)
    ensures LexOne("\"" + Escape(t) + "\"" + " " + rest, at) == Ok(Lexed(TextTok(t), |Escape(t)| + 2))
  {
    var s := "\"" + Escape(t) + "\"" + " " + rest;
    assert s[1..] == Escape(t) + "\"" + (" " + rest);
    ScanEscaped(t, " " + rest);
  }

  lemma OpBack(op: CompareOp, rest: string, at: nat)
    requires op != Contains
    ensures LexOne(OpText(op) + " " + rest, at) == Ok(Lexed(OpTok(op), |OpText(op)|))
  {
  }

  lemma KeywordBack(t: Token, rest: string, at: nat)
    requires t in {AndTok, OrTok, NotTok, ContainsTok, BoolTok(true), BoolTok(false)}
    ensures LexOne(TokenText(t) + " " + rest, at) == Ok(Lexed(t, |TokenText(t)|))
  {
    WordBack(TokenText(t), rest, at);
  }

  /** A written token is read back whole. */
  lemma TokenBack(t: Token, rest: string, at: nat)
    requires Writable(t)
    ensures TokenText(t) != "" && !IsSpace(TokenText(t)[0])
    ensures LexOne(TokenText(t) + " " + rest, at) == Ok(Lexed(t, |TokenText(t)|))
  {
    match t
    case IdentTok(name) => WordBack(name, rest, at);
    case NumberTok(l) => NumberBack(l, rest, at);
    case TextTok(s) => TextBack(s, rest, at);
    case OpTok(op) => OpBack(op, rest, at);
    case DotTok => assert ("." + " " + rest)[0] == '.';
    case LParenTok => assert ("(" + " " + rest)[0] == '(';
    case RParenTok => assert (")" + " " + rest)[0] == ')';
    case _ => KeywordBack(t, rest, at);
  }

  ghost predicate AllWritable(ts: seq<Token>) {
    forall i | 0 <= i < |ts| :: Writable(ts[i])
  }

  lemma LexBlank(rest: string, at: nat)
    ensures Lex(" " + rest, at) == Lex(rest, at + 1)
  {
  }

  /** Reading `s` starts with `t` and goes on with `tail`. */
  ghost predicate ReadsFirst(s: string, at: nat, t: Token, tail: string, next: nat) {
    Lex(s, at) == Prepend([SpannedToken(t, at)], Lex(tail, next))
  }

  /** The token `t`, written as `w` and a blank, is read off the front. */
  ghost predicate ReadsWord(w: string, rest: string, at: nat, t: Token) {
    ReadsFirst(w + " " + rest, at, t, rest, at + |w| + 1)
  }

  lemma LexRendered(t: Token, rest: string, at: nat)
    requires Writable(t)
    ensures ReadsWord(TokenText(t), rest, at, t)
  {
    TokenBack(t, rest, at);
    LexWord(TokenText(t), rest, at, t);
  }

  lemma LexWord(w: string, rest: string, at: nat, t: Token)
    requires w != "" && !IsSpace(w[0]) && LexOne(w + " " + rest, at) == Ok(Lexed(t, |w|))
    ensures ReadsWord(w, rest, at, t)
  {
    WordThenRest(w, rest);
    LexFirst(w + " " + rest, at, t, |w|);
    SkipBlank(w + " " + rest, at, t, rest, at + |w|);
  }

  lemma WordThenRest(w: string, rest: string)
    requires w != ""
    ensures (w + " " + rest)[0] == w[0] && (w + " " + rest)[|w|..] == " " + rest
  {
  }

  lemma LexFirst(s: string, at: nat, t: Token, n: nat)
    requires 0 < n <= |s| && !IsSpace(s[0]) && LexOne(s, at) == Ok(Lexed(t, n))
    ensures ReadsFirst(s, at, t, s[n..], at + n)
  {
  }

  lemma SkipBlank(s: string, at: nat, t: Token, rest: string, next: nat)
    requires ReadsFirst(s, at, t, " " + rest, next)
    ensures ReadsFirst(s, at, t, rest, next + 1)
  {
    LexBlank(rest, next);
  }

  lemma StripFirst(t: SpannedToken, rest: Tokens, ts: seq<Token>)
    requires ts != [] && t.token == ts[0] && rest.Ok? && Strip(rest.value) == ts[1..]
    ensures Prepend([t], rest).Ok? && Strip(Prepend([t], rest).value) == ts
  {
  }

  lemma ReadOn(w: string, rest: string, at: nat, ts: seq<Token>)
    requires ts != [] && ReadsWord(w, rest, at, ts[0])
    requires Lex(rest, at + |w| + 1).Ok? && Strip(Lex(rest, at + |w| + 1).value) == ts[1..]
    ensures Lex(w + " " + rest, at).Ok? && Strip(Lex(w + " " + rest, at).value) == ts
  {
    StripFirst(SpannedToken(ts[0], at), Lex(rest, at + |w| + 1), ts);
  }

  lemma RenderFirst(ts: seq<Token>)
    requires ts != []
    ensures Render(ts) == TokenText(ts[0]) + " " + Render(ts[1..])
  {
  }

  lemma {:induction false} TokensBack(ts: seq<Token>, at: nat)
    requires AllWritable(ts)
    ensures Lex(Render(ts), at).Ok? && Strip(Lex(Render(ts), at).value) == ts
  {
    if ts == [] {
      assert Strip([]) == [];
    } else {
      var w := TokenText(ts[0]);
      LexRendered(ts[0], Render(ts[1..]), at);
      TokensBack(ts[1..], at + |w| + 1);
      RenderFirst(ts);
      ReadOn(w, Render(ts[1..]), at, ts);
    }
  }

  // ---------------------------------------------------------------- what encoding does to a tree

  function TokenBytes(t: Token): Token {
    if t.TextTok? then TextTok(Encode(t.s)) else t
  }

  function TokensBytes(ts: seq<Token>): seq<Token> {
    seq(|ts|, i requires 0 <= i < |ts| => TokenBytes(ts[i]))
  }

  function TermBytes(t: Term): Term {
    if t.Lit? && t.literal.TextLit? then Lit(TextLit(Encode(t.literal.s))) else t
  }

  /** The tree whose text literals hold one character per UTF-8 byte. */
  function Bytewise(e: Expression): Expression {
    match e
    case And(a, b) => And(Bytewise(a), Bytewise(b))
    case Or(a, b) => Or(Bytewise(a), Bytewise(b))
    case Not(x) => Not(Bytewise(x))
    case Compare(l, op, r) => Compare(TermBytes(l), op, TermBytes(r))
    case Truthy(t) => Truthy(TermBytes(t))
  }

  predicate AsciiTerm(t: Term) {
    t.Lit? && t.literal.TextLit? ==> Ascii(t.literal.s)
  }

  /** Every text literal is ASCII. */
  predicate AsciiTexts(e: Expression) {
    match e
    case And(a, b) => AsciiTexts(a) && AsciiTexts(b)
    case Or(a, b) => AsciiTexts(a) && AsciiTexts(b)
    case Not(x) => AsciiTexts(x)
    case Compare(l, _, r) => AsciiTerm(l) && AsciiTerm(r)
    case Truthy(t) => AsciiTerm(t)
  }

  lemma TermBytesSame(t: Term)
    ensures TermBytes(t) == t <==> AsciiTerm(t)
  {
    if t.Lit? && t.literal.TextLit? { EncodeLength(t.literal.s); }
  }

  lemma {:induction false} BytewiseSame(e: Expression)
    ensures Bytewise(e) == e <==> AsciiTexts(e)
  {
    match e
    case And(a, b) => BytewiseSame(a); BytewiseSame(b);
    case Or(a, b) => BytewiseSame(a); BytewiseSame(b);
    case Not(x) => BytewiseSame(x);
    case Compare(l, _, r) => TermBytesSame(l); TermBytesSame(r);
    case Truthy(t) => TermBytesSame(t);
  }

  lemma {:induction false} BytewisePrintable(e: Expression)
    requires Printable(e)
    ensures Printable(Bytewise(e))
  {
    match e
    case And(a, b) => BytewisePrintable(a); BytewisePrintable(b);
    case Or(a, b) => BytewisePrintable(a); BytewisePrintable(b);
    case Not(x) => BytewisePrintable(x);
    case Compare(_, _, _) =>
    case Truthy(_) =>
  }

  lemma BytesJoin(a: seq<Token>, b: seq<Token>)
    ensures TokensBytes(a + b) == TokensBytes(a) + TokensBytes(b)
  {
  }

  lemma BytesInfix(l: seq<Token>, t: Token, r: seq<Token>)
    ensures TokensBytes(l + [t] + r) == TokensBytes(l) + [TokenBytes(t)] + TokensBytes(r)
  {
  }

  lemma {:induction false} PathBytes(pieces: seq<string>)
    ensures TokensBytes(PathTokens(pieces)) == PathTokens(pieces)
  {
    var n := |pieces|;
    if n > 1 {
      PathBytes(pieces[..n - 1]);
      BytesJoin(PathTokens(pieces[..n - 1]), [DotTok, IdentTok(pieces[n - 1])]);
    }
  }

  lemma TermTokensBytes(t: Term)
    ensures TokensBytes(TermTokens(t)) == TermTokens(TermBytes(t))
  {
    if t.Signal? { PathBytes(Pieces(t.name)); }
  }

  lemma BracketBytes(needed: bool, ts: seq<Token>)
    ensures TokensBytes(Bracket(needed, ts)) == Bracket(needed, TokensBytes(ts))
  {
  }

  lemma {:induction false} PrintBytes(e: Expression, level: nat)
    ensures TokensBytes(Print(e, level)) == Print(Bytewise(e), level)
  {
    match e
    case Or(a, b) =>
      PrintBytes(a, 0);
      PrintBytes(b, 1);
      BytesInfix(Print(a, 0), OrTok, Print(b, 1));
      BracketBytes(level > 0, Print(a, 0) + [OrTok] + Print(b, 1));
    case And(a, b) =>
      PrintBytes(a, 1);
      PrintBytes(b, 2);
      BytesInfix(Print(a, 1), AndTok, Print(b, 2));
      BracketBytes(level > 1, Print(a, 1) + [AndTok] + Print(b, 2));
    case Not(x) =>
      PrintBytes(x, 2);
      BytesJoin([NotTok], Print(x, 2));
    case Compare(l, op, r) =>
      TermTokensBytes(l);
      TermTokensBytes(r);
      BytesInfix(TermTokens(l), OpToken(op), TermTokens(r));
    case Truthy(t) =>
      TermTokensBytes(t);
  }

  lemma {:induction false} EscapeBytes(s: string)
    ensures Encode(Escape(s)) == Escape(Encode(s))
  {
    if s != [] {
      EscapeBytes(s[1..]);
      EncodeJoin(EscapeChar(s[0]), Escape(s[1..]));
      EscapeJoin(EncodeChar(s[0]), Encode(s[1..]));
      EscapeCharBytes(s[0]);
    }
  }

  lemma {:induction false} EscapeJoin(a: string, b: string)
    ensures Escape(a + b) == Escape(a) + Escape(b)
  {
    if a == [] {
      assert a + b == b;
    } else {
      EscapeJoin(a[1..], b);
      EscapeFirst(a, b);
    }
  }

  lemma EscapeFirst(a: string, b: string)
    requires a != []
    ensures Escape(a + b) == EscapeChar(a[0]) + Escape(a[1..] + b)
  {
    assert (a + b)[0] == a[0] && (a + b)[1..] == a[1..] + b;
  }

  lemma {:induction false} NothingToEscape(s: string)
    requires forall i | 0 <= i < |s| :: s[i] != '"' && s[i] != '\\'
    ensures Escape(s) == s
  {
    if s != [] {
      NothingToEscape(s[1..]);
    }
  }

  lemma EscapeCharBytes(c: char)
    ensures Encode(EscapeChar(c)) == Escape(EncodeChar(c))
  {
    if c == '"' || c == '\\' {
      assert Encode(['\\', c][1..]) == [c];
      assert Escape([c]) == ['\\', c];
    } else {
      assert Encode([c]) == EncodeChar(c);
      NothingToEscape(EncodeChar(c));
    }
  }

  lemma AsciiStays(s: string)
    requires Ascii(s)
    ensures Encode(s) == s
  {
  }

  lemma TokenTextBytes(t: Token)
    requires Writable(t)
    ensures Encode(TokenText(t)) == TokenText(TokenBytes(t))
  {
    if t.TextTok? {
      EncodeJoin("\"" + Escape(t.s), "\"");
      EncodeJoin("\"", Escape(t.s));
      AsciiStays("\"");
      EscapeBytes(t.s);
    } else {
      AsciiStays(TokenText(t));
    }
  }

  lemma {:induction false} RenderBytes(ts: seq<Token>)
    requires AllWritable(ts)
    ensures Encode(Render(ts)) == Render(TokensBytes(ts))
  {
    if ts != [] {
      RenderBytes(ts[1..]);
      TokenTextBytes(ts[0]);
      AsciiStays(" ");
      EncodeJoin(TokenText(ts[0]) + " ", Render(ts[1..]));
      EncodeJoin(TokenText(ts[0]), " ");
      assert TokensBytes(ts)[1..] == TokensBytes(ts[1..]);
    }
  }

  lemma {:induction false} PathWritable(pieces: seq<string>)
    requires forall i | 0 <= i < |pieces| :: IsIdent(pieces[i])
    ensures AllWritable(PathTokens(pieces))
  {
    if |pieces| > 1 { PathWritable(pieces[..|pieces| - 1]); }
  }

  lemma TermWritable(t: Term)
    requires PrintableTerm(t)
    ensures AllWritable(TermTokens(t))
  {
    if t.Signal? { PathWritable(Pieces(t.name)); }
  }

  lemma JoinWritable(a: seq<Token>, t: Token, c: seq<Token>, bracket: bool)
    requires AllWritable(a) && Writable(t) && AllWritable(c)
    ensures AllWritable(Bracket(bracket, a + [t] + c))
  {
  }

  lemma {:induction false} PrintWritable(e: Expression, level: nat)
    requires Printable(e)
    ensures AllWritable(Print(e, level))
  {
    match e
    case Or(a, b) =>
      PrintWritable(a, 0);
      PrintWritable(b, 1);
      JoinWritable(Print(a, 0), OrTok, Print(b, 1), level > 0);
    case And(a, b) =>
      PrintWritable(a, 1);
      PrintWritable(b, 2);
      JoinWritable(Print(a, 1), AndTok, Print(b, 2), level > 1);
    case Not(x) => PrintWritable(x, 2);
    case Compare(l, op, r) =>
      TermWritable(l);
      TermWritable(r);
      JoinWritable(TermTokens(l), OpToken(op), TermTokens(r), false);
    case Truthy(t) => TermWritable(t);
  }

  // ---------------------------------------------------------------- the round trip

  /** Printing, encoding, tokenizing and parsing gives the tree back, its text literals byte by byte. */
  lemma {:induction false} PrintedTextParses(e: Expression)
    requires Printable(e)
    ensures ParseText(Encode(Text(e))) == Ok(Bytewise(e))
  {
    var ts := Print(e, 0);
    PrintWritable(e, 0);
    RenderBytes(ts);
    PrintBytes(e, 0);
    BytewisePrintable(e);
    PrintWritable(Bytewise(e), 0);
    TokensBack(Print(Bytewise(e), 0), 0);
    PrintFits(Bytewise(e), 0);
    var spanned := Lex(Render(Print(Bytewise(e), 0)), 0).value;
    ParsesExactlyTheGrammar(spanned, Bytewise(e));
  }

  /** So the very same tree comes back exactly when its text literals are ASCII. */
  lemma {:induction false} RoundTripIff(e: Expression)
    requires Printable(e)
    ensures ParseText(Encode(Text(e))) == Ok(e) <==> AsciiTexts(e)
  {
    PrintedTextParses(e);
    BytewiseSame(e);
  }
}
