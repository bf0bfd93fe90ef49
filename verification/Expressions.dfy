/**
 Signals, the abstract syntax of relevance predicates, and their evaluation.

 A number literal is kept as the lexeme the user wrote; its value is the exact decimal it denotes.
 A number signal may be any double.
 */
module Expressions {
  import opened Prelude

  datatype SignalValue =
    | Bool(b: bool)
    | Number(n: Float)
    | Text(s: string)
    | TextList(items: seq<string>)

  type SignalContext = map<string, SignalValue>

  datatype CompareOp = Eq | NotEq | Lt | LtEq | Gt | GtEq | Contains

  datatype Literal = BoolLit(b: bool) | NumberLit(lexeme: string) | TextLit(s: string)

  datatype Term = Signal(name: string) | Lit(literal: Literal)

  datatype Expression =
    | And(left: Expression, right: Expression)
    | Or(left: Expression, right: Expression)
    | Not(inner: Expression)
    | Compare(lhs: Term, op: CompareOp, rhs: Term)
    | Truthy(term: Term)

  datatype EvalError =
    | NonBooleanLiteral
    | NonBooleanSignal
    | LeftNotNumber
    | RightNotNumber
    | BadContains

  type EvalResult = Result<bool, EvalError>

  // ---------------------------------------------------------------- numbers

  predicate IsDigit(c: char) { '0' <= c <= '9' }

  function DigitValue(c: char): real
    requires IsDigit(c)
  {
    (c as int - '0' as int) as real
  }

  /** The value of a digit string with at most one dot; `unit` is the weight of the next
      fractional digit once the dot has been passed. */
  function DecimalFrom(lexeme: string, acc: real, unit: Option<real>): real {
    if lexeme == [] then acc
    else if lexeme[0] == '.' then DecimalFrom(lexeme[1..], acc, Some(0.1))
    else if !IsDigit(lexeme[0]) then acc
    else match unit
      case None => DecimalFrom(lexeme[1..], acc * 10.0 + DigitValue(lexeme[0]), None)
      case Some(u) => DecimalFrom(lexeme[1..], acc + u * DigitValue(lexeme[0]), Some(u / 10.0))
  }

  function DecimalValue(lexeme: string): real {
    if lexeme != [] && lexeme[0] == '-' then -DecimalFrom(lexeme[1..], 0.0, None)
    else DecimalFrom(lexeme, 0.0, None)
  }

  // ---------------------------------------------------------------- evaluation

  function ResolveTerm(term: Term, ctx: SignalContext): Option<SignalValue> {
    match term
    case Lit(BoolLit(b)) => Some(Bool(b))
    case Lit(NumberLit(l)) => Some(Number(Finite(DecimalValue(l))))
    case Lit(TextLit(s)) => Some(Text(s))
    case Signal(name) => if name in ctx then Some(ctx[name]) else None
  }

  function EvalTruthy(term: Term, ctx: SignalContext): EvalResult {
    match term
    case Lit(BoolLit(b)) => Ok(b)
    case Lit(_) => Err(NonBooleanLiteral)
    case Signal(name) =>
      if name !in ctx then Ok(false)
      else match ctx[name]
        case Bool(b) => Ok(b)
        case _ => Err(NonBooleanSignal)
  }

  /** `needle` occurs in `text` as a contiguous substring. */
  predicate Occurs(needle: string, text: string) {
    needle <= text || (text != [] && Occurs(needle, text[1..]))
  }

  function EvalContains(haystack: SignalValue, needle: SignalValue): EvalResult {
    match (haystack, needle)
    case (TextList(items), Text(s)) => Ok(s in items)
    case (Text(text), Text(s)) => Ok(Occurs(s, text))
    case _ => Err(BadContains)
  }

  /** Doubles compare as IEEE 754 has it: `NaN` is neither below, above nor equal to anything. */
  predicate Below(a: Float, b: Float) {
    match (a, b)
    case (Finite(x), Finite(y)) => x < y
    case (Finite(_), Infinite(negative)) => !negative
    case (Infinite(negative), Finite(_)) => negative
    case (Infinite(n), Infinite(m)) => n && !m
    case _ => false
  }

  predicate SameNumber(a: Float, b: Float) {
    a == b && !a.NaN?
  }

  predicate SameSignal(a: SignalValue, b: SignalValue) {
    if a.Number? && b.Number? then SameNumber(a.n, b.n) else a == b
  }

  predicate EvalOrder(op: CompareOp, a: Float, b: Float)
    requires op in {Lt, LtEq, Gt, GtEq}
  {
    match op
    case Lt => Below(a, b)
    case LtEq => Below(a, b) || SameNumber(a, b)
    case Gt => Below(b, a)
    case GtEq => Below(b, a) || SameNumber(a, b)
  }

  function EvalCompare(op: CompareOp, lhs: Term, rhs: Term, ctx: SignalContext): EvalResult {
    var l, r := ResolveTerm(lhs, ctx), ResolveTerm(rhs, ctx);
    if l.None? || r.None? then Ok(false)
    else match op
      case Eq => Ok(SameSignal(l.value, r.value))
      case NotEq => Ok(!SameSignal(l.value, r.value))
      case Contains => EvalContains(l.value, r.value)
      case _ =>
        if !l.value.Number? then Err(LeftNotNumber)
        else if !r.value.Number? then Err(RightNotNumber)
        else Ok(EvalOrder(op, l.value.n, r.value.n))
  }

  /** `and` and `or` short-circuit: a decided left side hides an error on the right. */
  function Evaluate(expr: Expression, ctx: SignalContext): EvalResult {
    match expr
    case And(a, b) =>
      var l := Evaluate(a, ctx);
      if l.Err? || !l.value then l else Evaluate(b, ctx)
    case Or(a, b) =>
      var l := Evaluate(a, ctx);
      if l.Err? || l.value then l else Evaluate(b, ctx)
    case Not(inner) =>
      var v := Evaluate(inner, ctx);
      if v.Err? then v else Ok(!v.value)
    case Truthy(term) => EvalTruthy(term, ctx)
    case Compare(lhs, op, rhs) => EvalCompare(op, lhs, rhs, ctx)
  }

  // ---------------------------------------------------------------- properties

  /** The signals a predicate names. */
  function TermSignals(term: Term): set<string> {
    if term.Signal? then {term.name} else {}
  }

  function Signals(expr: Expression): set<string> {
    match expr
    case And(a, b) => Signals(a) + Signals(b)
    case Or(a, b) => Signals(a) + Signals(b)
    case Not(inner) => Signals(inner)
    case Truthy(term) => TermSignals(term)
    case Compare(lhs, _, rhs) => TermSignals(lhs) + TermSignals(rhs)
  }

  ghost predicate AgreeOn(names: set<string>, c: SignalContext, d: SignalContext) {
    forall n | n in names :: (n in c <==> n in d) && (n in c ==> c[n] == d[n])
  }

  /** A predicate sees nothing but the signals it names. */
  lemma {:induction false} EvaluationIsLocal(expr: Expression, c: SignalContext, d: SignalContext)
    requires AgreeOn(Signals(expr), c, d)
    ensures Evaluate(expr, c) == Evaluate(expr, d)
  {
    match expr
    case And(a, b) => EvaluationIsLocal(a, c, d); EvaluationIsLocal(b, c, d);
    case Or(a, b) => EvaluationIsLocal(a, c, d); EvaluationIsLocal(b, c, d);
    case Not(inner) => EvaluationIsLocal(inner, c, d);
    case Truthy(Signal(n)) => assert n in Signals(expr);
    case Truthy(Lit(_)) =>
    case Compare(lhs, _, rhs) =>
      assert ResolveTerm(lhs, c) == ResolveTerm(lhs, d);
      assert ResolveTerm(rhs, c) == ResolveTerm(rhs, d);
  }

  /** The order comparison that denies `op` on numbers. */
  function Complement(op: CompareOp): CompareOp
    requires op in {Lt, LtEq, Gt, GtEq}
  {
    match op case Lt => GtEq case LtEq => Gt case Gt => LtEq case GtEq => Lt
  }

  /** Two numbers are compared, and one of them is `NaN`. */
  predicate MeetsNaN(lhs: Term, rhs: Term, ctx: SignalContext) {
    var l, r := ResolveTerm(lhs, ctx), ResolveTerm(rhs, ctx);
    l.Some? && r.Some? && l.value.Number? && r.value.Number? && (l.value.n.NaN? || r.value.n.NaN?)
  }

  /** `not (a < b)` and `a >= b` are interchangeable exactly when no signal is missing and no `NaN` is
      compared with a number: either makes both comparisons false, so their negations disagree. */
  lemma {:induction false} NegatedComparison(op: CompareOp, lhs: Term, rhs: Term, ctx: SignalContext)
    requires op in {Lt, LtEq, Gt, GtEq}
    ensures Evaluate(Not(Compare(lhs, op, rhs)), ctx) == Evaluate(Compare(lhs, Complement(op), rhs), ctx)
       <==> TermSignals(lhs) + TermSignals(rhs) <= ctx.Keys && !MeetsNaN(lhs, rhs, ctx)
  {
  }
}
