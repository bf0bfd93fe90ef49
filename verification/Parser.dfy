/** The recursive-descent parser as it runs: a token list and a cursor. */
module Parsing {
  import opened Prelude
  import opened Expressions
  import opened Lexer
  import opened Grammar

  type Node<T> = Result<T, ParseError>

  class Parser {
    const tokens: seq<SpannedToken>
    var pos: nat

    constructor (tokens: seq<SpannedToken>)
      ensures this.tokens == tokens && pos == 0
    {
      this.tokens := tokens;
      pos := 0;
    }

    /** What a parsing method answers: the node and cursor the grammar functions give, or their error. */
    ghost predicate Answers<T>(r: Node<T>, expected: Parse<T>)
      reads this
    {
      match expected
      case Err(e) => r == Err(e) && pos <= |tokens|
      case Ok(Parsed(node, next)) => r == Ok(node) && pos == next
    }

    function Peek(): Option<Token>
      reads this
    {
      if pos < |tokens| then Some(tokens[pos].token) else None
    }

    method Advance() returns (t: Option<Token>)
      requires pos <= |tokens|
      modifies this`pos
      ensures t == old(Peek()) && pos == Advanced(tokens, old(pos)) <= |tokens|
    {
      t := Peek();
      if pos < |tokens| {
        pos := pos + 1;
      }
    }

    method ParseExpr() returns (r: Node<Expression>)
      requires pos <= |tokens|
      modifies this`pos
      ensures Answers(r, Grammar.ParseOr(tokens, old(pos)))
      decreases |tokens| - pos, 6
    {
      r := ParseOrs();
    }

    method ParseOrs() returns (r: Node<Expression>)
      requires pos <= |tokens|
      modifies this`pos
      ensures Answers(r, Grammar.ParseOr(tokens, old(pos)))
      decreases |tokens| - pos, 5
    {
      ghost var start := pos;
      r := ParseAnds();
      if r.Err? { return; }
      var lhs := r.value;
      while Peek() == Some(OrTok)
        invariant pos <= |tokens| && start < pos
        invariant Grammar.ParseOr(tokens, start) == OrLoop(tokens, lhs, pos)
        decreases |tokens| - pos
      {
        var _ := Advance();
        r := ParseAnds();
        if r.Err? { return; }
        lhs := Or(lhs, r.value);
      }
      r := Ok(lhs);
    }

    method ParseAnds() returns (r: Node<Expression>)
      requires pos <= |tokens|
      modifies this`pos
      ensures Answers(r, Grammar.ParseAnd(tokens, old(pos)))
      decreases |tokens| - pos, 4
    {
      ghost var start := pos;
      r := ParseUnaries();
      if r.Err? { return; }
      var lhs := r.value;
      while Peek() == Some(AndTok)
        invariant pos <= |tokens| && start < pos
        invariant Grammar.ParseAnd(tokens, start) == AndLoop(tokens, lhs, pos)
        decreases |tokens| - pos
      {
        var _ := Advance();
        r := ParseUnaries();
        if r.Err? { return; }
        lhs := And(lhs, r.value);
      }
      r := Ok(lhs);
    }

    method ParseUnaries() returns (r: Node<Expression>)
      requires pos <= |tokens|
      modifies this`pos
      ensures Answers(r, Grammar.ParseUnary(tokens, old(pos)))
      decreases |tokens| - pos, 3
    {
      if Peek() == Some(NotTok) {
        var _ := Advance();
        r := ParseUnaries();
        if r.Ok? { r := Ok(Not(r.value)); }
        return;
      }
      r := ParseAtoms();
    }

    method ParseAtoms() returns (r: Node<Expression>)
      requires pos <= |tokens|
      modifies this`pos
      ensures Answers(r, Grammar.ParseAtom(tokens, old(pos)))
      decreases |tokens| - pos, 2
    {
      if Peek() == Some(LParenTok) {
        var _ := Advance();
        r := ParseExpr();
        if r.Err? { return; }
        var t := Advance();
        if t != Some(RParenTok) {
          r := Err(ParseError(ExpectedRParen, PeekPosition(tokens, pos)));
        }
      } else {
        r := ParseComparisons();
      }
    }

    method ParseComparisons() returns (r: Node<Expression>)
      requires pos <= |tokens|
      modifies this`pos
      ensures Answers(r, Grammar.ParseComparison(tokens, old(pos)))
      decreases |tokens| - pos, 1
    {
      var lhsPos := PeekPosition(tokens, pos);
      var lhs := ParseTerms();
      if lhs.Err? { return Err(lhs.error); }
      var t := Peek();
      if t.Some? && OpOf(t.value).Some? {
        var _ := Advance();
        var rhs := ParseTerms();
        if rhs.Err? { return Err(rhs.error); }
        return Ok(Compare(lhs.value, OpOf(t.value).value, rhs.value));
      }
      if Boolish(lhs.value) {
        r := Ok(Truthy(lhs.value));
      } else {
        r := Err(ParseError(NonBooleanTerm, lhsPos));
      }
    }

    method ParseTerms() returns (r: Node<Term>)
      requires pos <= |tokens|
      modifies this`pos
      ensures Answers(r, Grammar.ParseTerm(tokens, old(pos)))
    {
      ghost var start := pos;
      var at := PeekPosition(tokens, pos);
      var t := Advance();
      if t.None? { return Err(ParseError(UnexpectedEnd, at)); }
      match t.value {
        case NumberTok(l) => return Ok(Lit(NumberLit(l)));
        case TextTok(s) => return Ok(Lit(TextLit(s)));
        case BoolTok(b) => return Ok(Lit(BoolLit(b)));
        case IdentTok(first) =>
          var path := first;
          while Peek() == Some(DotTok)
            invariant start < pos <= |tokens|
            invariant Grammar.ParseTerm(tokens, start) == ParsePath(tokens, path, pos)
            decreases |tokens| - pos
          {
            var _ := Advance();
            var next := Advance();
            if next.None? || !next.value.IdentTok? {
              return Err(ParseError(ExpectedIdent, PeekPosition(tokens, pos)));
            }
            path := path + "." + next.value.name;
          }
          return Ok(Signal(path));
        case _ => return Err(ParseError(UnexpectedToken, at));
      }
    }
  }

  method ParseExpression(src: string) returns (r: Node<Expression>)
    ensures r == ParseText(src)
  {
    var tokens := Tokenize(src);
    if tokens.Err? { return Err(tokens.error); }
    var p := new Parser(tokens.value);
    r := p.ParseExpr();
    if r.Ok? && p.pos < |p.tokens| {
      r := Err(ParseError(TrailingToken, p.tokens[p.pos].position));
    }
  }
}
