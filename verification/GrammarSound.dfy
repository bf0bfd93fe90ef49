/** Everything the parser accepts is in the grammar. */
module GrammarSound {
  import opened Prelude
  import opened Expressions
  import opened Lexer
  import opened Grammar

  lemma SliceSplit(ts: seq<SpannedToken>, a: nat, k: nat, b: nat)
    requires a <= k < b <= |ts|
    ensures Slice(ts, a, b)[..k - a] == Slice(ts, a, k)
    ensures Slice(ts, a, b)[k - a] == ts[k].token
    ensures Slice(ts, a, b)[k - a + 1..] == Slice(ts, k + 1, b)
  {
  }

  lemma {:induction false} PathSound(ts: seq<SpannedToken>, start: nat, path: string, pos: nat)
    requires start < pos <= |ts| && PathOf(Slice(ts, start, pos)) == Some(path)
    ensures var r := ParsePath(ts, path, pos); r.Ok? ==> IsTerm(Slice(ts, start, r.value.next), r.value.node)
    decreases |ts| - pos
  {
    if At(ts, pos, DotTok) && pos + 1 < |ts| && ts[pos + 1].token.IdentTok? {
      var longer := Slice(ts, start, pos + 2);
      assert longer[..|longer| - 2] == Slice(ts, start, pos);
      PathSound(ts, start, path + "." + ts[pos + 1].token.name, pos + 2);
    }
  }

  lemma TermSound(ts: seq<SpannedToken>, pos: nat)
    requires pos <= |ts|
    ensures var r := ParseTerm(ts, pos); r.Ok? ==> IsTerm(Slice(ts, pos, r.value.next), r.value.node)
  {
    if pos < |ts| {
      var one := Slice(ts, pos, pos + 1);
      assert one == [ts[pos].token];
      if ts[pos].token.IdentTok? {
        PathSound(ts, pos, ts[pos].token.name, pos + 1);
      }
    }
  }

  lemma ComparisonSound(ts: seq<SpannedToken>, pos: nat)
    requires pos <= |ts|
    ensures var r := ParseComparison(ts, pos); r.Ok? ==> IsComparison(Slice(ts, pos, r.value.next), r.value.node)
  {
    var r := ParseComparison(ts, pos);
    TermSound(ts, pos);
    if r.Ok? && r.value.node.Compare? {
      var p := ParseTerm(ts, pos).value.next;
      TermSound(ts, p + 1);
      ComparesSound(ts, pos, p, r.value.next, r.value.node);
    }
  }

  lemma ComparesSound(ts: seq<SpannedToken>, pos: nat, p: nat, next: nat, e: Expression)
    requires pos <= p < next <= |ts| && e.Compare? && OpOf(ts[p].token) == Some(e.op)
    requires IsTerm(Slice(ts, pos, p), e.lhs) && IsTerm(Slice(ts, p + 1, next), e.rhs)
    ensures IsComparison(Slice(ts, pos, next), e)
  {
    SliceSplit(ts, pos, p, next);
    assert Compares(Slice(ts, pos, next), p - pos, e.lhs, e.op, e.rhs);
  }

  lemma {:induction false} AtomSound(ts: seq<SpannedToken>, pos: nat)
    requires pos <= |ts|
    ensures var r := ParseAtom(ts, pos); r.Ok? ==> IsAtom(Slice(ts, pos, r.value.next), r.value.node)
    decreases |ts| - pos, 0
  {
    if At(ts, pos, LParenTok) {
      OrSound(ts, pos + 1);
      var r := ParseAtom(ts, pos);
      if r.Ok? {
        var s := Slice(ts, pos, r.value.next);
        assert s[1..|s| - 1] == Slice(ts, pos + 1, r.value.next - 1);
      }
    } else {
      ComparisonSound(ts, pos);
    }
  }

  lemma {:induction false} UnarySound(ts: seq<SpannedToken>, pos: nat)
    requires pos <= |ts|
    ensures var r := ParseUnary(ts, pos); r.Ok? ==> IsUnary(Slice(ts, pos, r.value.next), r.value.node)
    decreases |ts| - pos, 1
  {
    if At(ts, pos, NotTok) {
      UnarySound(ts, pos + 1);
      var r := ParseUnary(ts, pos);
      if r.Ok? {
        assert Slice(ts, pos, r.value.next)[1..] == Slice(ts, pos + 1, r.value.next);
      }
    } else {
      AtomSound(ts, pos);
    }
  }

  lemma {:induction false} AndLoopSound(ts: seq<SpannedToken>, start: nat, lhs: Expression, pos: nat)
    requires start <= pos <= |ts| && IsAnd(Slice(ts, start, pos), lhs)
    ensures var r := AndLoop(ts, lhs, pos); r.Ok? ==> IsAnd(Slice(ts, start, r.value.next), r.value.node)
    decreases |ts| - pos, 2
  {
    if At(ts, pos, AndTok) && ParseUnary(ts, pos + 1).Ok? {
      var Parsed(rhs, q) := ParseUnary(ts, pos + 1).value;
      UnarySound(ts, pos + 1);
      SliceSplit(ts, start, pos, q);
      assert JoinsAnd(Slice(ts, start, q), pos - start, lhs, rhs);
      AndLoopSound(ts, start, And(lhs, rhs), q);
    }
  }

  lemma {:induction false} AndSound(ts: seq<SpannedToken>, pos: nat)
    requires pos <= |ts|
    ensures var r := ParseAnd(ts, pos); r.Ok? ==> IsAnd(Slice(ts, pos, r.value.next), r.value.node)
    decreases |ts| - pos, 3
  {
    UnarySound(ts, pos);
    var first := ParseUnary(ts, pos);
    if first.Ok? {
      AndLoopSound(ts, pos, first.value.node, first.value.next);
    }
  }

  lemma {:induction false} OrLoopSound(ts: seq<SpannedToken>, start: nat, lhs: Expression, pos: nat)
    requires start <= pos <= |ts| && IsOr(Slice(ts, start, pos), lhs)
    ensures var r := OrLoop(ts, lhs, pos); r.Ok? ==> IsOr(Slice(ts, start, r.value.next), r.value.node)
    decreases |ts| - pos, 4
  {
    if At(ts, pos, OrTok) && ParseAnd(ts, pos + 1).Ok? {
      var Parsed(rhs, q) := ParseAnd(ts, pos + 1).value;
      AndSound(ts, pos + 1);
      SliceSplit(ts, start, pos, q);
      assert JoinsOr(Slice(ts, start, q), pos - start, lhs, rhs);
      OrLoopSound(ts, start, Or(lhs, rhs), q);
    }
  }

  lemma {:induction false} OrSound(ts: seq<SpannedToken>, pos: nat)
    requires pos <= |ts|
    ensures var r := ParseOr(ts, pos); r.Ok? ==> IsOr(Slice(ts, pos, r.value.next), r.value.node)
    decreases |ts| - pos, 5
  {
    AndSound(ts, pos);
    var first := ParseAnd(ts, pos);
    if first.Ok? {
      OrLoopSound(ts, pos, first.value.node, first.value.next);
    }
  }
}
