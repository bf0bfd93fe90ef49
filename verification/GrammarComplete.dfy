/** Everything in the grammar is accepted, with its own tree; so the grammar is unambiguous. */
module GrammarComplete {
  import opened Prelude
  import opened Expressions
  import opened Lexer
  import opened Grammar
  import opened GrammarSound

  // What may follow a phrase without lengthening it.

  predicate EndsTerm(ts: seq<SpannedToken>, k: nat) {
    k >= |ts| || ts[k].token != DotTok
  }

  predicate EndsComparison(ts: seq<SpannedToken>, k: nat) {
    k >= |ts| || (ts[k].token != DotTok && OpOf(ts[k].token).None?)
  }

  predicate EndsAnd(ts: seq<SpannedToken>, k: nat) {
    EndsComparison(ts, k) && !At(ts, k, AndTok)
  }

  lemma SliceOfSlice(ts: seq<SpannedToken>, a: nat, k: nat, i: nat, j: nat)
    requires a <= k <= |ts| && i <= j <= k - a
    ensures Slice(ts, a, k)[i..j] == Slice(ts, a + i, a + j)
  {
  }

  lemma {:induction false} PathComplete(ts: seq<SpannedToken>, a: nat, k: nat, name: string)
    requires a < k <= |ts| && PathOf(Slice(ts, a, k)) == Some(name)
    ensures ts[a].token.IdentTok?
    ensures ParsePath(ts, ts[a].token.name, a + 1) == ParsePath(ts, name, k)
    decreases k
  {
    var s := Slice(ts, a, k);
    if |s| == 1 {
      assert s == [ts[a].token];
    } else {
      assert s[..|s| - 2] == Slice(ts, a, k - 2);
      assert s[|s| - 2] == ts[k - 2].token && s[|s| - 1] == ts[k - 1].token;
      PathComplete(ts, a, k - 2, PathOf(s[..|s| - 2]).value);
    }
  }

  lemma TermComplete(ts: seq<SpannedToken>, a: nat, k: nat, t: Term)
    requires a <= k <= |ts| && IsTerm(Slice(ts, a, k), t) && EndsTerm(ts, k)
    ensures a < k && ParseTerm(ts, a) == Ok(Parsed(t, k))
    ensures ts[a].token != LParenTok && ts[a].token != NotTok
  {
    var s := Slice(ts, a, k);
    assert |s| == k - a;
    if t.Signal? {
      PathComplete(ts, a, k, t.name);
    } else {
      assert |s| == 1 && s[0] == ts[a].token;
    }
  }

  lemma CompareComplete(ts: seq<SpannedToken>, a: nat, j: nat, k: nat, l: Term, op: CompareOp, r: Term)
    requires a <= j < k <= |ts| && OpOf(ts[j].token) == Some(op) && EndsTerm(ts, k)
    requires IsTerm(Slice(ts, a, j), l) && IsTerm(Slice(ts, j + 1, k), r)
    ensures a < k && ParseComparison(ts, a) == Ok(Parsed(Compare(l, op, r), k))
    ensures ts[a].token != LParenTok && ts[a].token != NotTok
  {
    TermComplete(ts, a, j, l);
    TermComplete(ts, j + 1, k, r);
  }

  lemma CompareSplit(ts: seq<SpannedToken>, a: nat, k: nat, e: Expression) returns (j: nat)
    requires a <= k <= |ts| && e.Compare? && IsComparison(Slice(ts, a, k), e)
    ensures a <= j < k && OpOf(ts[j].token) == Some(e.op)
    ensures IsTerm(Slice(ts, a, j), e.lhs) && IsTerm(Slice(ts, j + 1, k), e.rhs)
  {
    var i: nat :| Compares(Slice(ts, a, k), i, e.lhs, e.op, e.rhs);
    j := a + i;
    SliceSplit(ts, a, j, k);
  }

  lemma ComparisonComplete(ts: seq<SpannedToken>, a: nat, k: nat, e: Expression)
    requires a <= k <= |ts| && IsComparison(Slice(ts, a, k), e) && EndsComparison(ts, k)
    ensures a < k && ParseComparison(ts, a) == Ok(Parsed(e, k))
    ensures ts[a].token != LParenTok && ts[a].token != NotTok
  {
    if e.Compare? {
      var j := CompareSplit(ts, a, k, e);
      CompareComplete(ts, a, j, k, e.lhs, e.op, e.rhs);
    } else {
      TermComplete(ts, a, k, e.term);
    }
  }

  lemma AndSplit(ts: seq<SpannedToken>, a: nat, k: nat, e: Expression) returns (j: nat)
    requires a <= k <= |ts| && IsAnd(Slice(ts, a, k), e) && !IsUnary(Slice(ts, a, k), e)
    ensures e.And? && a <= j < k && ts[j].token == AndTok
    ensures IsAnd(Slice(ts, a, j), e.left) && IsUnary(Slice(ts, j + 1, k), e.right)
  {
    var s := Slice(ts, a, k);
    var i :| 0 <= i < |s| && JoinsAnd(s, i, e.left, e.right);
    j := a + i;
    SliceSplit(ts, a, j, k);
  }

  lemma OrSplit(ts: seq<SpannedToken>, a: nat, k: nat, e: Expression) returns (j: nat)
    requires a <= k <= |ts| && IsOr(Slice(ts, a, k), e) && !IsAnd(Slice(ts, a, k), e)
    ensures e.Or? && a <= j < k && ts[j].token == OrTok
    ensures IsOr(Slice(ts, a, j), e.left) && IsAnd(Slice(ts, j + 1, k), e.right)
  {
    var s := Slice(ts, a, k);
    var i :| 0 <= i < |s| && JoinsOr(s, i, e.left, e.right);
    j := a + i;
    SliceSplit(ts, a, j, k);
  }

  lemma {:induction false} AtomComplete(ts: seq<SpannedToken>, a: nat, k: nat, e: Expression)
    requires a <= k <= |ts| && IsAtom(Slice(ts, a, k), e) && EndsComparison(ts, k)
    ensures a < k && ParseAtom(ts, a) == Ok(Parsed(e, k)) && ts[a].token != NotTok
    decreases k - a, 0
  {
    var s := Slice(ts, a, k);
    if IsComparison(s, e) {
      ComparisonComplete(ts, a, k, e);
    } else {
      assert s[0] == ts[a].token && s[|s| - 1] == ts[k - 1].token;
      SliceOfSlice(ts, a, k, 1, |s| - 1);
      OrComplete(ts, a + 1, k - 1, e);
    }
  }

  lemma {:induction false} UnaryComplete(ts: seq<SpannedToken>, a: nat, k: nat, e: Expression)
    requires a <= k <= |ts| && IsUnary(Slice(ts, a, k), e) && EndsComparison(ts, k)
    ensures a < k && ParseUnary(ts, a) == Ok(Parsed(e, k))
    decreases k - a, 1
  {
    var s := Slice(ts, a, k);
    if IsAtom(s, e) {
      AtomComplete(ts, a, k, e);
    } else {
      assert s[0] == ts[a].token && s[1..] == Slice(ts, a + 1, k);
      UnaryComplete(ts, a + 1, k, e.inner);
    }
  }

  /** A conjunction is passed by the loop as a finished left side. */
  lemma {:induction false} AndComplete(ts: seq<SpannedToken>, a: nat, k: nat, e: Expression)
    requires a <= k <= |ts| && IsAnd(Slice(ts, a, k), e) && EndsComparison(ts, k)
    ensures a < k && ParseAnd(ts, a) == AndLoop(ts, e, k)
    decreases k - a, 2
  {
    var s := Slice(ts, a, k);
    if IsUnary(s, e) {
      UnaryComplete(ts, a, k, e);
    } else {
      var j := AndSplit(ts, a, k, e);
      AndComplete(ts, a, j, e.left);
      UnaryComplete(ts, j + 1, k, e.right);
    }
  }

  lemma {:induction false} OrComplete(ts: seq<SpannedToken>, a: nat, k: nat, e: Expression)
    requires a <= k <= |ts| && IsOr(Slice(ts, a, k), e) && EndsAnd(ts, k)
    ensures a < k && ParseOr(ts, a) == OrLoop(ts, e, k)
    decreases k - a, 3
  {
    var s := Slice(ts, a, k);
    if IsAnd(s, e) {
      AndComplete(ts, a, k, e);
    } else {
      var j := OrSplit(ts, a, k, e);
      OrComplete(ts, a, j, e.left);
      AndComplete(ts, j + 1, k, e.right);
    }
  }

  /** The parser accepts exactly the documented grammar and builds the tree the grammar gives. */
  lemma {:induction false} ParsesExactlyTheGrammar(ts: seq<SpannedToken>, e: Expression)
    ensures ParseTokens(ts) == Ok(e) <==> IsOr(Strip(ts), e)
  {
    assert Slice(ts, 0, |ts|) == Strip(ts);
    OrSound(ts, 0);
    if IsOr(Strip(ts), e) {
      OrComplete(ts, 0, |ts|, e);
    }
  }

  /** No token string has two trees. */
  lemma {:induction false} GrammarIsUnambiguous(ts: seq<Token>, e: Expression, f: Expression)
    requires IsOr(ts, e) && IsOr(ts, f)
    ensures e == f
  {
    var spanned := seq(|ts|, i requires 0 <= i < |ts| => SpannedToken(ts[i], i));
    assert Strip(spanned) == ts;
    ParsesExactlyTheGrammar(spanned, e);
    ParsesExactlyTheGrammar(spanned, f);
  }
}
