/** The trees the parser can build: what is printable, its text literals byte by byte. */
module ParserImage {
  import opened Prelude
  import opened Expressions
  import opened Lexer
  import opened Grammar
  import opened GrammarComplete
  import opened Printer
  import opened RoundTrip
  import opened LexBytes

  // ---------------------------------------------------------------- tokens that are read can be written

  lemma NumeralWritable(s: string, at: nat)
    requires s != [] && !IsSpace(s[0]) && LexOne(s, at).Ok? && LexOne(s, at).value.token.NumberTok?
    ensures IsNumber(LexOne(s, at).value.token.lexeme)
  {
    var n := 1 + Span(IsNumeral, s[1..]);
    var l := s[..n];
    assert LexOne(s, at).value.token.lexeme == l;
    forall i | 0 < i < |l| ensures IsNumeral(l[i]) { assert l[i] == s[1..][i - 1]; }
    if s[0] == '-' { assert s[1..][0] == s[1]; }
  }

  lemma TokenWritable(s: string, at: nat)
    requires s != [] && !IsSpace(s[0]) && LexOne(s, at).Ok?
    ensures Writable(LexOne(s, at).value.token)
  {
    var t := LexOne(s, at).value.token;
    if t.NumberTok? { NumeralWritable(s, at); }
    if t.IdentTok? {
      var n := Span(IsWord, s);
      assert s[..n] == t.name && n > 0;
    }
  }

  lemma {:induction false} ReadWritable(s: string, at: nat)
    requires Lex(s, at).Ok?
    ensures AllWritable(Strip(Lex(s, at).value))
  {
    if s != [] {
      if IsSpace(s[0]) {
        ReadWritable(s[1..], at + 1);
      } else {
        TokenWritable(s, at);
        var one := LexOne(s, at).value;
        ReadWritable(s[one.length..], at + one.length);
        WritableMore(SpannedToken(one.token, at), Lex(s[one.length..], at + one.length));
      }
    }
  }

  lemma WritableMore(t: SpannedToken, rest: Tokens)
    requires Writable(t.token) && rest.Ok? && AllWritable(Strip(rest.value))
    ensures AllWritable(Strip(Prepend([t], rest).value))
  {
    StripMore(t, rest.value);
  }

  // ---------------------------------------------------------------- paths

  lemma {:induction false} PiecesWord(front: string, word: string)
    requires forall i | 0 <= i < |word| :: word[i] != '.'
    ensures var p := Pieces(front); Pieces(front + word) == p[|p| - 1 := p[|p| - 1] + word]
  {
    var p := Pieces(front);
    if word == [] {
      assert front + word == front && p[|p| - 1] + word == p[|p| - 1];
    } else {
      var n := |word| - 1;
      PiecesWord(front, word[..n]);
      assert (front + word)[..|front| + n] == front + word[..n];
      assert p[|p| - 1] + word == p[|p| - 1] + word[..n] + [word[n]];
    }
  }

  lemma PiecesDot(front: string)
    ensures Pieces(front + ".") == Pieces(front) + [""]
  {
    assert (front + ".")[..|front|] == front;
  }

  lemma IdentHasNoDot(word: string)
    requires IsIdent(word)
    ensures forall i | 0 <= i < |word| :: word[i] != '.'
  {
    forall i | 0 <= i < |word| ensures word[i] != '.' { assert IsWord(word[i]); }
  }

  lemma OnePiece(word: string)
    requires forall i | 0 <= i < |word| :: word[i] != '.'
    ensures Pieces(word) == [word]
  {
    PiecesWord("", word);
    assert "" + word == word;
    assert Pieces("") == [""];
  }

  lemma OneMorePiece(front: string, word: string)
    requires forall i | 0 <= i < |word| :: word[i] != '.'
    ensures Pieces(front + "." + word) == Pieces(front) + [word]
  {
    PiecesDot(front);
    PiecesWord(front + ".", word);
    assert "" + word == word;
  }

  lemma {:induction false} PathIsPath(ts: seq<Token>, name: string)
    requires PathOf(ts) == Some(name) && AllWritable(ts)
    ensures IsPath(name)
  {
    var n := |ts|;
    var word := ts[n - 1].name;
    assert Writable(ts[n - 1]);
    IdentHasNoDot(word);
    if n == 1 {
      OnePiece(word);
    } else {
      var front := PathOf(ts[..n - 2]).value;
      PathIsPath(ts[..n - 2], front);
      OneMorePiece(front, word);
    }
  }

  // ---------------------------------------------------------------- phrases

  lemma TermIsPrintable(ts: seq<Token>, t: Term)
    requires IsTerm(ts, t) && AllWritable(ts)
    ensures PrintableTerm(t)
  {
    match t
    case Signal(name) => PathIsPath(ts, name);
    case Lit(NumberLit(l)) => assert Writable(ts[0]);
    case Lit(_) =>
  }

  lemma PartWritable(ts: seq<Token>, a: nat, b: nat)
    requires AllWritable(ts) && a <= b <= |ts|
    ensures AllWritable(ts[a..b])
  {
  }

  lemma ComparisonIsPrintable(ts: seq<Token>, e: Expression)
    requires IsComparison(ts, e) && AllWritable(ts)
    ensures Printable(e)
  {
    match e
    case Compare(l, op, r) =>
      var k: nat :| Compares(ts, k, l, op, r);
      PartWritable(ts, 0, k);
      PartWritable(ts, k + 1, |ts|);
      assert ts[0..k] == ts[..k] && ts[k + 1..|ts|] == ts[k + 1..];
      TermIsPrintable(ts[..k], l);
      TermIsPrintable(ts[k + 1..], r);
    case Truthy(t) => TermIsPrintable(ts, t);
  }

  lemma {:induction false} UnaryIsPrintable(ts: seq<Token>, e: Expression)
    requires IsUnary(ts, e) && AllWritable(ts)
    ensures Printable(e)
    decreases |ts|, 0
  {
    if IsComparison(ts, e) {
      ComparisonIsPrintable(ts, e);
    } else if IsAtom(ts, e) {
      PartWritable(ts, 1, |ts| - 1);
      OrIsPrintable(ts[1..|ts| - 1], e);
    } else {
      PartWritable(ts, 1, |ts|);
      assert ts[1..|ts|] == ts[1..];
      UnaryIsPrintable(ts[1..], e.inner);
    }
  }

  lemma {:induction false} AndIsPrintable(ts: seq<Token>, e: Expression)
    requires IsAnd(ts, e) && AllWritable(ts)
    ensures Printable(e)
    decreases |ts|, 1
  {
    if IsUnary(ts, e) {
      UnaryIsPrintable(ts, e);
    } else {
      var k :| 0 <= k < |ts| && JoinsAnd(ts, k, e.left, e.right);
      PartWritable(ts, 0, k);
      PartWritable(ts, k + 1, |ts|);
      assert ts[0..k] == ts[..k] && ts[k + 1..|ts|] == ts[k + 1..];
      AndIsPrintable(ts[..k], e.left);
      UnaryIsPrintable(ts[k + 1..], e.right);
    }
  }

  lemma {:induction false} OrIsPrintable(ts: seq<Token>, e: Expression)
    requires IsOr(ts, e) && AllWritable(ts)
    ensures Printable(e)
    decreases |ts|, 2
  {
    if IsAnd(ts, e) {
      AndIsPrintable(ts, e);
    } else {
      var k :| 0 <= k < |ts| && JoinsOr(ts, k, e.left, e.right);
      PartWritable(ts, 0, k);
      PartWritable(ts, k + 1, |ts|);
      assert ts[0..k] == ts[..k] && ts[k + 1..|ts|] == ts[k + 1..];
      OrIsPrintable(ts[..k], e.left);
      AndIsPrintable(ts[k + 1..], e.right);
    }
  }

  // ---------------------------------------------------------------- trees of encoded tokens

  lemma {:induction false} PathUnencoded(ts: seq<Token>)
    ensures PathOf(TokensBytes(ts)) == PathOf(ts)
  {
    var n := |ts|;
    if n > 2 {
      PathUnencoded(ts[..n - 2]);
      assert TokensBytes(ts)[..n - 2] == TokensBytes(ts[..n - 2]);
    }
  }

  lemma TermUnencoded(ts: seq<Token>, t: Term) returns (u: Term)
    requires IsTerm(TokensBytes(ts), t)
    ensures IsTerm(ts, u) && TermBytes(u) == t && (Boolish(t) ==> Boolish(u))
  {
    u := t;
    if t.Signal? {
      PathUnencoded(ts);
    } else {
      assert |ts| == 1 && ts == [ts[0]] && TokensBytes(ts)[0] == TokenBytes(ts[0]);
      if t.literal.TextLit? { u := Lit(TextLit(ts[0].s)); }
    }
  }

  lemma PartEncoded(ts: seq<Token>, a: nat, b: nat)
    requires a <= b <= |ts|
    ensures TokensBytes(ts)[a..b] == TokensBytes(ts[a..b])
  {
  }

  lemma AroundEncoded(ts: seq<Token>, k: nat)
    requires k < |ts|
    ensures TokensBytes(ts)[..k] == TokensBytes(ts[..k]) && TokensBytes(ts)[k + 1..] == TokensBytes(ts[k + 1..])
    ensures TokensBytes(ts)[k] == TokenBytes(ts[k])
  {
  }

  lemma ComparisonUnencoded(ts: seq<Token>, e: Expression) returns (p: Expression)
    requires IsComparison(TokensBytes(ts), e)
    ensures IsComparison(ts, p) && Bytewise(p) == e
  {
    if e.Compare? {
      var k: nat :| Compares(TokensBytes(ts), k, e.lhs, e.op, e.rhs);
      AroundEncoded(ts, k);
      var l := TermUnencoded(ts[..k], e.lhs);
      var r := TermUnencoded(ts[k + 1..], e.rhs);
      assert Compares(ts, k, l, e.op, r);
      p := Compare(l, e.op, r);
    } else {
      var t := TermUnencoded(ts, e.term);
      p := Truthy(t);
    }
  }

  lemma {:induction false} UnaryUnencoded(ts: seq<Token>, e: Expression) returns (p: Expression)
    requires IsUnary(TokensBytes(ts), e)
    ensures IsUnary(ts, p) && Bytewise(p) == e
    decreases |ts|, 0
  {
    if IsComparison(TokensBytes(ts), e) {
      p := ComparisonUnencoded(ts, e);
    } else if IsAtom(TokensBytes(ts), e) {
      PartEncoded(ts, 1, |ts| - 1);
      p := OrUnencoded(ts[1..|ts| - 1], e);
    } else {
      AroundEncoded(ts, 0);
      var x := UnaryUnencoded(ts[1..], e.inner);
      p := Not(x);
    }
  }

  lemma {:induction false} AndUnencoded(ts: seq<Token>, e: Expression) returns (p: Expression)
    requires IsAnd(TokensBytes(ts), e)
    ensures IsAnd(ts, p) && Bytewise(p) == e
    decreases |ts|, 1
  {
    if IsUnary(TokensBytes(ts), e) {
      p := UnaryUnencoded(ts, e);
    } else {
      var k :| 0 <= k < |ts| && JoinsAnd(TokensBytes(ts), k, e.left, e.right);
      AroundEncoded(ts, k);
      var l := AndUnencoded(ts[..k], e.left);
      var r := UnaryUnencoded(ts[k + 1..], e.right);
      assert JoinsAnd(ts, k, l, r);
      p := And(l, r);
    }
  }

  lemma {:induction false} OrUnencoded(ts: seq<Token>, e: Expression) returns (p: Expression)
    requires IsOr(TokensBytes(ts), e)
    ensures IsOr(ts, p) && Bytewise(p) == e
    decreases |ts|, 2
  {
    if IsAnd(TokensBytes(ts), e) {
      p := AndUnencoded(ts, e);
    } else {
      var k :| 0 <= k < |ts| && JoinsOr(TokensBytes(ts), k, e.left, e.right);
      AroundEncoded(ts, k);
      var l := OrUnencoded(ts[..k], e.left);
      var r := AndUnencoded(ts[k + 1..], e.right);
      assert JoinsOr(ts, k, l, r);
      p := Or(l, r);
    }
  }

  // ---------------------------------------------------------------- the image

  /** Behind a tree the bytes of a text parse to stands a printable one. */
  lemma ParsedIsBytewise(s: string, e: Expression) returns (p: Expression)
    requires ParseText(Encode(s)) == Ok(e)
    ensures Printable(p) && e == Bytewise(p)
  {
    BytesTokens(s, Encode(s), 0, 0);
    var bytes, ts := Lex(Encode(s), 0).value, Strip(Lex(s, 0).value);
    ParsesExactlyTheGrammar(bytes, e);
    p := OrUnencoded(ts, e);
    ReadWritable(s, 0);
    OrIsPrintable(ts, p);
  }

  /** The trees the UTF-8 bytes of some text parse to are exactly the printable ones with their text
      literals byte by byte. */
  lemma {:induction false} ParsedIffBytewise(e: Expression)
    ensures (exists s: string :: ParseText(Encode(s)) == Ok(e)) <==> (exists p | Printable(p) :: e == Bytewise(p))
  {
    if s: string :| ParseText(Encode(s)) == Ok(e) {
      var p := ParsedIsBytewise(s, e);
    }
    if p :| Printable(p) && e == Bytewise(p) {
      PrintedTextParses(p);
    }
  }
}
