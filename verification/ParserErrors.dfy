/** Which token a parse error blames, and where it is reported. */
module ParserErrors {
  import opened Prelude
  import opened Expressions
  import opened Lexer
  import opened Grammar
  import opened GrammarSound

  predicate StartsTerm(t: Token) {
    t.NumberTok? || t.TextTok? || t.BoolTok? || t.IdentTok?
  }

  /** The place of token `k`; behind the last token, the place after it. */
  function PlaceOf(ts: seq<SpannedToken>, k: nat): nat {
    if k < |ts| then ts[k].position else if ts == [] then 0 else ts[|ts| - 1].position + 1
  }

  /** Token `k` is to blame for `e`. A missing name or closing bracket is reported one token late. */
  ghost predicate Blames(ts: seq<SpannedToken>, k: nat, e: ParseError) {
    match e.problem
    case UnexpectedEnd => k == |ts| && e.position == PlaceOf(ts, k)
    case UnexpectedToken => k < |ts| && !StartsTerm(ts[k].token) && e.position == PlaceOf(ts, k)
    case ExpectedIdent =>
      && 0 < k <= |ts| && ts[k - 1].token == DotTok && (k < |ts| ==> !ts[k].token.IdentTok?)
      && e.position == PlaceOf(ts, if k < |ts| then k + 1 else k)
    case ExpectedRParen =>
      && 0 < k <= |ts| && (k < |ts| ==> ts[k].token != RParenTok)
      && e.position == PlaceOf(ts, if k < |ts| then k + 1 else k)
    case NonBooleanTerm =>
      && k < |ts| && (ts[k].token.NumberTok? || ts[k].token.TextTok?)
      && (k + 1 < |ts| ==> OpOf(ts[k + 1].token).None?) && e.position == PlaceOf(ts, k)
    case TrailingToken =>
      && 0 < k < |ts| && e.position == PlaceOf(ts, k)
      && exists tree :: IsOr(Slice(ts, 0, k), tree)
    case _ => false
  }

  ghost predicate Blamed(ts: seq<SpannedToken>, e: ParseError) {
    exists k: nat :: Blames(ts, k, e)
  }

  lemma {:induction false} PathBlames(ts: seq<SpannedToken>, path: string, pos: nat)
    requires pos <= |ts|
    ensures ParsePath(ts, path, pos).Err? ==> Blamed(ts, ParsePath(ts, path, pos).error)
    decreases |ts| - pos
  {
    if At(ts, pos, DotTok) {
      if pos + 1 < |ts| && ts[pos + 1].token.IdentTok? {
        PathBlames(ts, path + "." + ts[pos + 1].token.name, pos + 2);
      } else {
        assert Blames(ts, pos + 1, ParsePath(ts, path, pos).error);
      }
    }
  }

  lemma TermBlames(ts: seq<SpannedToken>, pos: nat)
    requires pos <= |ts|
    ensures ParseTerm(ts, pos).Err? ==> Blamed(ts, ParseTerm(ts, pos).error)
    ensures ParseTerm(ts, pos).Ok? && !Boolish(ParseTerm(ts, pos).value.node) ==>
      ParseTerm(ts, pos).value.next == pos + 1 && (ts[pos].token.NumberTok? || ts[pos].token.TextTok?)
  {
    if pos < |ts| && ts[pos].token.IdentTok? {
      PathBlames(ts, ts[pos].token.name, pos + 1);
      PathIsSignal(ts, ts[pos].token.name, pos + 1);
    } else if ParseTerm(ts, pos).Err? {
      assert Blames(ts, pos, ParseTerm(ts, pos).error);
    }
  }

  lemma {:induction false} PathIsSignal(ts: seq<SpannedToken>, path: string, pos: nat)
    requires pos <= |ts|
    ensures ParsePath(ts, path, pos).Ok? ==> ParsePath(ts, path, pos).value.node.Signal?
    decreases |ts| - pos
  {
    if At(ts, pos, DotTok) && pos + 1 < |ts| && ts[pos + 1].token.IdentTok? {
      PathIsSignal(ts, path + "." + ts[pos + 1].token.name, pos + 2);
    }
  }

  lemma ComparisonBlames(ts: seq<SpannedToken>, pos: nat)
    requires pos <= |ts|
    ensures ParseComparison(ts, pos).Err? ==> Blamed(ts, ParseComparison(ts, pos).error)
  {
    var l := ParseTerm(ts, pos);
    TermBlames(ts, pos);
    if l.Ok? {
      var p := l.value.next;
      if p < |ts| && OpOf(ts[p].token).Some? {
        TermBlames(ts, p + 1);
      } else if !Boolish(l.value.node) {
        assert Blames(ts, pos, ParseComparison(ts, pos).error);
      }
    }
  }

  lemma {:induction false} AtomBlames(ts: seq<SpannedToken>, pos: nat)
    requires pos <= |ts|
    ensures ParseAtom(ts, pos).Err? ==> Blamed(ts, ParseAtom(ts, pos).error)
    decreases |ts| - pos, 0
  {
    if At(ts, pos, LParenTok) {
      OrBlames(ts, pos + 1);
      var inner := ParseOr(ts, pos + 1);
      if inner.Ok? && !At(ts, inner.value.next, RParenTok) {
        assert Blames(ts, inner.value.next, ParseAtom(ts, pos).error);
      }
    } else {
      ComparisonBlames(ts, pos);
    }
  }

  lemma {:induction false} UnaryBlames(ts: seq<SpannedToken>, pos: nat)
    requires pos <= |ts|
    ensures ParseUnary(ts, pos).Err? ==> Blamed(ts, ParseUnary(ts, pos).error)
    decreases |ts| - pos, 1
  {
    if At(ts, pos, NotTok) { UnaryBlames(ts, pos + 1); } else { AtomBlames(ts, pos); }
  }

  lemma {:induction false} AndLoopBlames(ts: seq<SpannedToken>, lhs: Expression, pos: nat)
    requires pos <= |ts|
    ensures AndLoop(ts, lhs, pos).Err? ==> Blamed(ts, AndLoop(ts, lhs, pos).error)
    decreases |ts| - pos, 2
  {
    if At(ts, pos, AndTok) {
      UnaryBlames(ts, pos + 1);
      var rhs := ParseUnary(ts, pos + 1);
      if rhs.Ok? { AndLoopBlames(ts, And(lhs, rhs.value.node), rhs.value.next); }
    }
  }

  lemma {:induction false} AndBlames(ts: seq<SpannedToken>, pos: nat)
    requires pos <= |ts|
    ensures ParseAnd(ts, pos).Err? ==> Blamed(ts, ParseAnd(ts, pos).error)
    decreases |ts| - pos, 3
  {
    UnaryBlames(ts, pos);
    var first := ParseUnary(ts, pos);
    if first.Ok? { AndLoopBlames(ts, first.value.node, first.value.next); }
  }

  lemma {:induction false} OrLoopBlames(ts: seq<SpannedToken>, lhs: Expression, pos: nat)
    requires pos <= |ts|
    ensures OrLoop(ts, lhs, pos).Err? ==> Blamed(ts, OrLoop(ts, lhs, pos).error)
    decreases |ts| - pos, 4
  {
    if At(ts, pos, OrTok) {
      AndBlames(ts, pos + 1);
      var rhs := ParseAnd(ts, pos + 1);
      if rhs.Ok? { OrLoopBlames(ts, Or(lhs, rhs.value.node), rhs.value.next); }
    }
  }

  lemma {:induction false} OrBlames(ts: seq<SpannedToken>, pos: nat)
    requires pos <= |ts|
    ensures ParseOr(ts, pos).Err? ==> Blamed(ts, ParseOr(ts, pos).error)
    decreases |ts| - pos, 5
  {
    AndBlames(ts, pos);
    var first := ParseAnd(ts, pos);
    if first.Ok? { OrLoopBlames(ts, first.value.node, first.value.next); }
  }

  /** Every parse error blames a token that is wrong where it stands: no term starts with it, no name follows
      a dot, a bracket is not closed, a literal stands alone, or a predicate is complete before it. */
  lemma {:induction false} ParseErrorsBlame(ts: seq<SpannedToken>)
    ensures ParseTokens(ts).Err? ==> Blamed(ts, ParseTokens(ts).error)
  {
    OrBlames(ts, 0);
    var r := ParseOr(ts, 0);
    if r.Ok? && r.value.next < |ts| {
      OrSound(ts, 0);
      assert IsOr(Slice(ts, 0, r.value.next), r.value.node);
      assert Blames(ts, r.value.next, ParseTokens(ts).error);
    }
  }
}
