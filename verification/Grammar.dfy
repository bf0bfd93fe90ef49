/**
 The documented grammar as a relation between token strings and syntax trees:

   Or := And ("or" And)*, And := Unary ("and" Unary)*, Unary := "not" Unary | Atom,
   Atom := "(" Or ")" | Comparison, Comparison := Term (op Term)?, Term := literal | ident ("." ident)*

 `or` and `and` associate to the left; a term standing alone is a signal or a boolean literal.
 */
module Grammar {
  import opened Prelude
  import opened Expressions
  import opened Lexer

  function OpOf(t: Token): Option<CompareOp> {
    match t
    case OpTok(op) => Some(op)
    case ContainsTok => Some(Contains)
    case _ => None
  }

  /** The dotted path `ident ("." ident)*` spells. */
  function PathOf(ts: seq<Token>): Option<string> {
    var n := |ts|;
    if n == 0 || !ts[n - 1].IdentTok? then None
    else if n == 1 then Some(ts[0].name)
    else if n == 2 || ts[n - 2] != DotTok then None
    else
      var front := PathOf(ts[..n - 2]);
      if front.None? then None else Some(front.value + "." + ts[n - 1].name)
  }

  predicate IsTerm(ts: seq<Token>, t: Term) {
    match t
    case Lit(NumberLit(l)) => ts == [NumberTok(l)]
    case Lit(TextLit(s)) => ts == [TextTok(s)]
    case Lit(BoolLit(b)) => ts == [BoolTok(b)]
    case Signal(name) => PathOf(ts) == Some(name)
  }

  predicate Boolish(t: Term) {
    t.Signal? || t.literal.BoolLit?
  }

  /** `ts` is `l op r`, the operator standing at `k`. */
  predicate Compares(ts: seq<Token>, k: nat, l: Term, op: CompareOp, r: Term) {
    k < |ts| && OpOf(ts[k]) == Some(op) && IsTerm(ts[..k], l) && IsTerm(ts[k + 1..], r)
  }

  ghost predicate IsComparison(ts: seq<Token>, e: Expression) {
    match e
    case Compare(l, op, r) => exists k: nat :: Compares(ts, k, l, op, r)
    case Truthy(t) => Boolish(t) && IsTerm(ts, t)
    case _ => false
  }

  ghost predicate IsAtom(ts: seq<Token>, e: Expression)
    decreases |ts|, 0
  {
    || IsComparison(ts, e)
    || (|ts| >= 2 && ts[0] == LParenTok && ts[|ts| - 1] == RParenTok && IsOr(ts[1..|ts| - 1], e))
  }

  ghost predicate IsUnary(ts: seq<Token>, e: Expression)
    decreases |ts|, 1
  {
    || IsAtom(ts, e)
    || (e.Not? && ts != [] && ts[0] == NotTok && IsUnary(ts[1..], e.inner))
  }

  ghost predicate IsAnd(ts: seq<Token>, e: Expression)
    decreases |ts|, 2
  {
    || IsUnary(ts, e)
    || (e.And? && exists k | 0 <= k < |ts| :: JoinsAnd(ts, k, e.left, e.right))
  }

  ghost predicate JoinsAnd(ts: seq<Token>, k: nat, l: Expression, r: Expression)
    requires k < |ts|
    decreases |ts|, 1
  {
    ts[k] == AndTok && IsAnd(ts[..k], l) && IsUnary(ts[k + 1..], r)
  }

  ghost predicate IsOr(ts: seq<Token>, e: Expression)
    decreases |ts|, 3
  {
    || IsAnd(ts, e)
    || (e.Or? && exists k | 0 <= k < |ts| :: JoinsOr(ts, k, e.left, e.right))
  }

  ghost predicate JoinsOr(ts: seq<Token>, k: nat, l: Expression, r: Expression)
    requires k < |ts|
    decreases |ts|, 2
  {
    ts[k] == OrTok && IsOr(ts[..k], l) && IsAnd(ts[k + 1..], r)
  }

  // ---------------------------------------------------------------- the recursive descent

  /** A node and the position after it. */
  datatype Parsed<T> = Parsed(node: T, next: nat)

  type Parse<T> = Result<Parsed<T>, ParseError>

  predicate At(ts: seq<SpannedToken>, pos: nat, t: Token) {
    pos < |ts| && ts[pos].token == t
  }

  /** The position an error at token `pos` is reported at. */
  function PeekPosition(ts: seq<SpannedToken>, pos: nat): nat {
    if pos < |ts| then ts[pos].position else if ts != [] then ts[|ts| - 1].position + 1 else 0
  }

  /** The token position after `advance` at `pos`. */
  function Advanced(ts: seq<SpannedToken>, pos: nat): nat {
    if pos < |ts| then pos + 1 else pos
  }

  function ParsePath(ts: seq<SpannedToken>, path: string, pos: nat): (r: Parse<Term>)
    requires pos <= |ts|
    ensures r.Ok? ==> pos <= r.value.next <= |ts|
    decreases |ts| - pos
  {
    if !At(ts, pos, DotTok) then Ok(Parsed(Signal(path), pos))
    else if pos + 1 < |ts| && ts[pos + 1].token.IdentTok? then
      ParsePath(ts, path + "." + ts[pos + 1].token.name, pos + 2)
    else Err(ParseError(ExpectedIdent, PeekPosition(ts, Advanced(ts, pos + 1))))
  }

  function ParseTerm(ts: seq<SpannedToken>, pos: nat): (r: Parse<Term>)
    requires pos <= |ts|
    ensures r.Ok? ==> pos < r.value.next <= |ts|
  {
    if pos == |ts| then Err(ParseError(UnexpectedEnd, PeekPosition(ts, pos)))
    else match ts[pos].token
      case NumberTok(l) => Ok(Parsed(Lit(NumberLit(l)), pos + 1))
      case TextTok(s) => Ok(Parsed(Lit(TextLit(s)), pos + 1))
      case BoolTok(b) => Ok(Parsed(Lit(BoolLit(b)), pos + 1))
      case IdentTok(name) => ParsePath(ts, name, pos + 1)
      case _ => Err(ParseError(UnexpectedToken, PeekPosition(ts, pos)))
  }

  function ParseComparison(ts: seq<SpannedToken>, pos: nat): (r: Parse<Expression>)
    requires pos <= |ts|
    ensures r.Ok? ==> pos < r.value.next <= |ts|
  {
    var l := ParseTerm(ts, pos);
    if l.Err? then Err(l.error)
    else
      var Parsed(lhs, p) := l.value;
      if p < |ts| && OpOf(ts[p].token).Some? then
        var r := ParseTerm(ts, p + 1);
        if r.Err? then Err(r.error)
        else Ok(Parsed(Compare(lhs, OpOf(ts[p].token).value, r.value.node), r.value.next))
      else if Boolish(lhs) then Ok(Parsed(Truthy(lhs), p))
      else Err(ParseError(NonBooleanTerm, PeekPosition(ts, pos)))
  }

  function ParseAtom(ts: seq<SpannedToken>, pos: nat): (r: Parse<Expression>)
    requires pos <= |ts|
    ensures r.Ok? ==> pos < r.value.next <= |ts|
    decreases |ts| - pos, 0
  {
    if !At(ts, pos, LParenTok) then ParseComparison(ts, pos)
    else
      var inner := ParseOr(ts, pos + 1);
      if inner.Err? then inner
      else
        var q := inner.value.next;
        if At(ts, q, RParenTok) then Ok(Parsed(inner.value.node, q + 1))
        else Err(ParseError(ExpectedRParen, PeekPosition(ts, Advanced(ts, q))))
  }

  function ParseUnary(ts: seq<SpannedToken>, pos: nat): (r: Parse<Expression>)
    requires pos <= |ts|
    ensures r.Ok? ==> pos < r.value.next <= |ts|
    decreases |ts| - pos, 1
  {
    if At(ts, pos, NotTok) then
      var inner := ParseUnary(ts, pos + 1);
      if inner.Err? then inner else Ok(Parsed(Not(inner.value.node), inner.value.next))
    else ParseAtom(ts, pos)
  }

  function AndLoop(ts: seq<SpannedToken>, lhs: Expression, pos: nat): (r: Parse<Expression>)
    requires pos <= |ts|
    ensures r.Ok? ==> pos <= r.value.next <= |ts|
    decreases |ts| - pos, 2
  {
    if !At(ts, pos, AndTok) then Ok(Parsed(lhs, pos))
    else
      var rhs := ParseUnary(ts, pos + 1);
      if rhs.Err? then rhs else AndLoop(ts, And(lhs, rhs.value.node), rhs.value.next)
  }

  function ParseAnd(ts: seq<SpannedToken>, pos: nat): (r: Parse<Expression>)
    requires pos <= |ts|
    ensures r.Ok? ==> pos < r.value.next <= |ts|
    decreases |ts| - pos, 3
  {
    var first := ParseUnary(ts, pos);
    if first.Err? then first else AndLoop(ts, first.value.node, first.value.next)
  }

  function OrLoop(ts: seq<SpannedToken>, lhs: Expression, pos: nat): (r: Parse<Expression>)
    requires pos <= |ts|
    ensures r.Ok? ==> pos <= r.value.next <= |ts|
    decreases |ts| - pos, 4
  {
    if !At(ts, pos, OrTok) then Ok(Parsed(lhs, pos))
    else
      var rhs := ParseAnd(ts, pos + 1);
      if rhs.Err? then rhs else OrLoop(ts, Or(lhs, rhs.value.node), rhs.value.next)
  }

  function ParseOr(ts: seq<SpannedToken>, pos: nat): (r: Parse<Expression>)
    requires pos <= |ts|
    ensures r.Ok? ==> pos < r.value.next <= |ts|
    decreases |ts| - pos, 5
  {
    var first := ParseAnd(ts, pos);
    if first.Err? then first else OrLoop(ts, first.value.node, first.value.next)
  }

  /** The whole token list must be one expression. */
  function ParseTokens(ts: seq<SpannedToken>): Result<Expression, ParseError> {
    var r := ParseOr(ts, 0);
    if r.Err? then Err(r.error)
    else if r.value.next < |ts| then Err(ParseError(TrailingToken, ts[r.value.next].position))
    else Ok(r.value.node)
  }

  function ParseText(src: string): Result<Expression, ParseError> {
    var ts := Lex(src, 0);
    if ts.Err? then Err(ts.error) else ParseTokens(ts.value)
  }

  // ---------------------------------------------------------------- tokens without positions

  function Strip(ts: seq<SpannedToken>): (r: seq<Token>)
    ensures |r| == |ts| && forall i | 0 <= i < |ts| :: r[i] == ts[i].token
  {
    seq(|ts|, i requires 0 <= i < |ts| => ts[i].token)
  }

  /** The tokens from `a` up to `b`. */
  function Slice(ts: seq<SpannedToken>, a: nat, b: nat): seq<Token>
    requires a <= b <= |ts|
  {
    Strip(ts)[a..b]
  }
}
