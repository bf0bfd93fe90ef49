/**
 A printer for predicates, the inverse the parser is measured against: fewest parentheses, tokens
 separated by blanks, text escaped, and the result encoded as UTF-8.
 */
module Printer {
  import opened Prelude
  import opened Expressions
  import opened Lexer
  import opened Grammar

  // ---------------------------------------------------------------- what can be printed

  predicate IsIdent(word: string) {
    word != [] && IsAlpha(word[0]) && (forall i | 0 <= i < |word| :: IsWord(word[i])) && WordToken(word).IdentTok?
  }

  /** The pieces of a dotted name. */
  function Pieces(name: string): (r: seq<string>)
    ensures r != []
  {
    if name == [] then [""]
    else
      var front := Pieces(name[..|name| - 1]);
      var c := name[|name| - 1];
      if c == '.' then front + [""] else front[|front| - 1 := front[|front| - 1] + [c]]
  }

  predicate IsPath(name: string) {
    forall i | 0 <= i < |Pieces(name)| :: IsIdent(Pieces(name)[i])
  }

  predicate IsNumber(lexeme: string) {
    && |lexeme| > 0 && ValidNumeral(lexeme)
    && (if lexeme[0] == '-' then |lexeme| > 1 && IsDigit(lexeme[1]) else IsDigit(lexeme[0]))
    && forall i | 0 < i < |lexeme| :: IsNumeral(lexeme[i])
  }

  predicate PrintableTerm(t: Term) {
    match t
    case Signal(name) => IsPath(name)
    case Lit(NumberLit(l)) => IsNumber(l)
    case Lit(_) => true
  }

  /** Trees that can be written down: dotted names, numerals, and no bare non-boolean literal. */
  predicate Printable(e: Expression) {
    match e
    case And(a, b) => Printable(a) && Printable(b)
    case Or(a, b) => Printable(a) && Printable(b)
    case Not(x) => Printable(x)
    case Compare(l, _, r) => PrintableTerm(l) && PrintableTerm(r)
    case Truthy(t) => PrintableTerm(t) && Boolish(t)
  }

  // ---------------------------------------------------------------- tokens

  function PathTokens(pieces: seq<string>): seq<Token> {
    if pieces == [] then []
    else if |pieces| == 1 then [IdentTok(pieces[0])]
    else PathTokens(pieces[..|pieces| - 1]) + [DotTok, IdentTok(pieces[|pieces| - 1])]
  }

  function TermTokens(t: Term): seq<Token> {
    match t
    case Signal(name) => PathTokens(Pieces(name))
    case Lit(NumberLit(l)) => [NumberTok(l)]
    case Lit(TextLit(s)) => [TextTok(s)]
    case Lit(BoolLit(b)) => [BoolTok(b)]
  }

  function OpToken(op: CompareOp): Token {
    if op == Contains then ContainsTok else OpTok(op)
  }

  function Bracket(needed: bool, ts: seq<Token>): seq<Token> {
    if needed then [LParenTok] + ts + [RParenTok] else ts
  }

  /** Print in a place where an `or` (0), an `and` (1) or a unary (2) expression may stand. */
  function Print(e: Expression, level: nat): seq<Token> {
    match e
    case Or(a, b) => Bracket(level > 0, Print(a, 0) + [OrTok] + Print(b, 1))
    case And(a, b) => Bracket(level > 1, Print(a, 1) + [AndTok] + Print(b, 2))
    case Not(x) => [NotTok] + Print(x, 2)
    case Compare(l, op, r) => TermTokens(l) + [OpToken(op)] + TermTokens(r)
    case Truthy(t) => TermTokens(t)
  }

  // ---------------------------------------------------------------- printed tokens are a phrase

  function Dotted(pieces: seq<string>): string {
    if pieces == [] then ""
    else if |pieces| == 1 then pieces[0]
    else Dotted(pieces[..|pieces| - 1]) + "." + pieces[|pieces| - 1]
  }

  lemma {:induction false} PathTokensSpell(pieces: seq<string>)
    requires pieces != []
    ensures PathOf(PathTokens(pieces)) == Some(Dotted(pieces))
  {
    var n := |pieces|;
    if n > 1 {
      PathTokensSpell(pieces[..n - 1]);
      var ts := PathTokens(pieces);
      assert ts[..|ts| - 2] == PathTokens(pieces[..n - 1]);
    }
  }

  lemma DottedLast(pieces: seq<string>, c: char)
    requires pieces != []
    ensures Dotted(pieces + [""]) == Dotted(pieces) + "."
    ensures Dotted(pieces[|pieces| - 1 := pieces[|pieces| - 1] + [c]]) == Dotted(pieces) + [c]
  {
  }

  lemma {:induction false} PiecesJoin(name: string)
    ensures Dotted(Pieces(name)) == name
  {
    if name != [] {
      var front, c := name[..|name| - 1], name[|name| - 1];
      PiecesJoin(front);
      DottedLast(Pieces(front), c);
      assert name == front + [c];
    }
  }

  lemma TermTokensFit(t: Term)
    ensures IsTerm(TermTokens(t), t)
  {
    if t.Signal? {
      PathTokensSpell(Pieces(t.name));
      PiecesJoin(t.name);
    }
  }

  /** Whatever the grammar calls each level. */
  ghost predicate IsAt(level: nat, ts: seq<Token>, e: Expression) {
    if level == 0 then IsOr(ts, e) else if level == 1 then IsAnd(ts, e) else IsUnary(ts, e)
  }

  lemma Lift(ts: seq<Token>, e: Expression, level: nat)
    requires IsUnary(ts, e)
    ensures IsAt(level, ts, e)
  {
  }

  lemma BracketFits(ts: seq<Token>, e: Expression, level: nat)
    requires IsOr(ts, e)
    ensures IsAt(level, [LParenTok] + ts + [RParenTok], e)
  {
    var s := [LParenTok] + ts + [RParenTok];
    assert s[1..|s| - 1] == ts;
    assert IsAtom(s, e);
    Lift(s, e, level);
  }

  lemma JoinFits(l: seq<Token>, t: Token, r: seq<Token>)
    ensures var s := l + [t] + r; s[..|l|] == l && s[|l|] == t && s[|l| + 1..] == r
  {
  }

  lemma ComparisonFits(ts: seq<Token>, e: Expression, level: nat)
    requires IsComparison(ts, e)
    ensures IsAt(level, ts, e)
  {
    assert IsAtom(ts, e);
    Lift(ts, e, level);
  }

  /** What the printer writes for a place is a phrase of that place. */
  lemma {:induction false} PrintFits(e: Expression, level: nat)
    requires Printable(e) && level <= 2
    ensures IsAt(level, Print(e, level), e)
  {
    match e
    case Or(a, b) =>
      PrintFits(a, 0);
      PrintFits(b, 1);
      JoinFits(Print(a, 0), OrTok, Print(b, 1));
      assert JoinsOr(Print(a, 0) + [OrTok] + Print(b, 1), |Print(a, 0)|, a, b);
      BracketFits(Print(a, 0) + [OrTok] + Print(b, 1), e, level);
    case And(a, b) =>
      PrintFits(a, 1);
      PrintFits(b, 2);
      JoinFits(Print(a, 1), AndTok, Print(b, 2));
      assert JoinsAnd(Print(a, 1) + [AndTok] + Print(b, 2), |Print(a, 1)|, a, b);
      BracketFits(Print(a, 1) + [AndTok] + Print(b, 2), e, level);
    case Not(x) =>
      PrintFits(x, 2);
      assert ([NotTok] + Print(x, 2))[1..] == Print(x, 2);
      Lift(Print(e, level), e, level);
    case Compare(l, op, r) =>
      TermTokensFit(l);
      TermTokensFit(r);
      JoinFits(TermTokens(l), OpToken(op), TermTokens(r));
      assert Compares(Print(e, level), |TermTokens(l)|, l, op, r);
      ComparisonFits(Print(e, level), e, level);
    case Truthy(t) =>
      TermTokensFit(t);
      ComparisonFits(Print(e, level), e, level);
  }

  // ---------------------------------------------------------------- no phrase has fewer parentheses

  function Parens(ts: seq<Token>): nat {
    if ts == [] then 0 else (if ts[0] == LParenTok then 1 else 0) + Parens(ts[1..])
  }

  lemma {:induction false} ParensAdd(a: seq<Token>, c: seq<Token>)
    ensures Parens(a + c) == Parens(a) + Parens(c)
  {
    if a == [] {
      assert a + c == c;
    } else {
      ParensAdd(a[1..], c);
      assert (a + c)[1..] == a[1..] + c;
    }
  }

  lemma ParensJoin(l: seq<Token>, t: Token, r: seq<Token>)
    ensures Parens(l + [t] + r) == Parens(l) + (if t == LParenTok then 1 else 0) + Parens(r)
  {
    ParensAdd(l + [t], r);
    ParensAdd(l, [t]);
  }

  lemma {:induction false} NoParens(pieces: seq<string>)
    ensures Parens(PathTokens(pieces)) == 0
  {
    var n := |pieces|;
    if n > 1 {
      NoParens(pieces[..n - 1]);
      var tail := [DotTok, IdentTok(pieces[n - 1])];
      assert tail[1..] == [IdentTok(pieces[n - 1])] && tail[1..][1..] == [];
      ParensAdd(PathTokens(pieces[..n - 1]), tail);
    } else if n == 1 {
      assert PathTokens(pieces)[1..] == [];
    }
  }

  lemma TermHasNoParens(t: Term)
    ensures Parens(TermTokens(t)) == 0
  {
    if t.Signal? { NoParens(Pieces(t.name)); }
  }

  lemma BracketParens(ts: seq<Token>)
    ensures Parens([LParenTok] + ts + [RParenTok]) == 1 + Parens(ts)
  {
    ParensAdd([LParenTok] + ts, [RParenTok]);
    ParensAdd([LParenTok], ts);
  }

  /** A tighter place costs at most one more pair, and never saves one. */
  lemma LevelsCost(e: Expression)
    ensures Parens(Print(e, 0)) <= Parens(Print(e, 1)) <= Parens(Print(e, 2)) <= Parens(Print(e, 0)) + 1
  {
    if e.Or? { BracketParens(Print(e.left, 0) + [OrTok] + Print(e.right, 1)); }
    if e.And? { BracketParens(Print(e.left, 1) + [AndTok] + Print(e.right, 2)); }
  }

  lemma ComparisonCost(ts: seq<Token>, e: Expression, level: nat)
    requires IsComparison(ts, e)
    ensures Parens(Print(e, level)) == 0
  {
    match e
    case Compare(l, op, r) =>
      TermHasNoParens(l);
      TermHasNoParens(r);
      ParensJoin(TermTokens(l), OpToken(op), TermTokens(r));
    case Truthy(t) =>
      TermHasNoParens(t);
  }

  lemma {:induction false} AtomCost(ts: seq<Token>, e: Expression)
    requires IsAtom(ts, e)
    ensures Parens(ts) >= Parens(Print(e, 2))
    decreases |ts|, 0
  {
    if IsComparison(ts, e) {
      ComparisonCost(ts, e, 2);
    } else {
      var inner := ts[1..|ts| - 1];
      OrCost(inner, e);
      assert ts == [LParenTok] + inner + [RParenTok];
      BracketParens(inner);
      LevelsCost(e);
    }
  }

  lemma {:induction false} UnaryCost(ts: seq<Token>, e: Expression)
    requires IsUnary(ts, e)
    ensures Parens(ts) >= Parens(Print(e, 2))
    decreases |ts|, 1
  {
    if IsAtom(ts, e) {
      AtomCost(ts, e);
    } else {
      UnaryCost(ts[1..], e.inner);
      assert ts == [NotTok] + ts[1..];
      assert Print(e, 2)[1..] == Print(e.inner, 2);
    }
  }

  lemma {:induction false} AndCost(ts: seq<Token>, e: Expression)
    requires IsAnd(ts, e)
    ensures Parens(ts) >= Parens(Print(e, 1))
    decreases |ts|, 2
  {
    LevelsCost(e);
    if IsUnary(ts, e) {
      UnaryCost(ts, e);
    } else {
      var k :| 0 <= k < |ts| && JoinsAnd(ts, k, e.left, e.right);
      AndCost(ts[..k], e.left);
      UnaryCost(ts[k + 1..], e.right);
      assert ts == ts[..k] + [AndTok] + ts[k + 1..];
      ParensJoin(ts[..k], AndTok, ts[k + 1..]);
      ParensJoin(Print(e.left, 1), AndTok, Print(e.right, 2));
    }
  }

  /** No token string for `e` has fewer parentheses than the printed one. */
  lemma {:induction false} OrCost(ts: seq<Token>, e: Expression)
    requires IsOr(ts, e)
    ensures Parens(ts) >= Parens(Print(e, 0))
    decreases |ts|, 3
  {
    LevelsCost(e);
    if IsAnd(ts, e) {
      AndCost(ts, e);
    } else {
      var k :| 0 <= k < |ts| && JoinsOr(ts, k, e.left, e.right);
      OrCost(ts[..k], e.left);
      AndCost(ts[k + 1..], e.right);
      assert ts == ts[..k] + [OrTok] + ts[k + 1..];
      ParensJoin(ts[..k], OrTok, ts[k + 1..]);
      ParensJoin(Print(e.left, 0), OrTok, Print(e.right, 1));
    }
  }
}
