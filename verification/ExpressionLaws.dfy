/** What predicates mean: classical logic where everything is defined, and what decides where it is not. */
module ExpressionLaws {
  import opened Prelude
  import opened Expressions

  // ---------------------------------------------------------------- connectives

  /** Every comparison and every bare term in the predicate has an answer. */
  predicate Defined(expr: Expression, ctx: SignalContext) {
    match expr
    case And(a, b) => Defined(a, ctx) && Defined(b, ctx)
    case Or(a, b) => Defined(a, ctx) && Defined(b, ctx)
    case Not(x) => Defined(x, ctx)
    case _ => Evaluate(expr, ctx).Ok?
  }

  /** The classical truth of a predicate whose parts all have an answer. */
  predicate True(expr: Expression, ctx: SignalContext)
    requires Defined(expr, ctx)
  {
    match expr
    case And(a, b) => True(a, ctx) && True(b, ctx)
    case Or(a, b) => True(a, ctx) || True(b, ctx)
    case Not(x) => !True(x, ctx)
    case _ => Evaluate(expr, ctx).value
  }

  lemma {:induction false} ClassicalWhereDefined(expr: Expression, ctx: SignalContext)
    requires Defined(expr, ctx)
    ensures Evaluate(expr, ctx) == Ok(True(expr, ctx))
  {
    match expr
    case And(a, b) => ClassicalWhereDefined(a, ctx); ClassicalWhereDefined(b, ctx);
    case Or(a, b) => ClassicalWhereDefined(a, ctx); ClassicalWhereDefined(b, ctx);
    case Not(x) => ClassicalWhereDefined(x, ctx);
    case Compare(_, _, _) =>
    case Truthy(_) =>
  }

  /** `and` holds exactly when both sides do; a false left side hides an error on the right, any other left
      side leaves the answer to it or to its own error. */
  lemma {:induction false} ConjunctionIff(a: Expression, b: Expression, ctx: SignalContext)
    ensures Evaluate(And(a, b), ctx) == Ok(true) <==> Evaluate(a, ctx) == Evaluate(b, ctx) == Ok(true)
    ensures Evaluate(And(a, b), ctx) == Ok(false) <==>
      Evaluate(a, ctx) == Ok(false) || (Evaluate(a, ctx) == Ok(true) && Evaluate(b, ctx) == Ok(false))
    ensures Evaluate(a, ctx).Err? ==> Evaluate(And(a, b), ctx) == Evaluate(a, ctx)
  {
  }

  /** `or` fails exactly when both sides do; a true left side hides an error on the right. */
  lemma {:induction false} DisjunctionIff(a: Expression, b: Expression, ctx: SignalContext)
    ensures Evaluate(Or(a, b), ctx) == Ok(false) <==> Evaluate(a, ctx) == Evaluate(b, ctx) == Ok(false)
    ensures Evaluate(Or(a, b), ctx) == Ok(true) <==>
      Evaluate(a, ctx) == Ok(true) || (Evaluate(a, ctx) == Ok(false) && Evaluate(b, ctx) == Ok(true))
    ensures Evaluate(a, ctx).Err? ==> Evaluate(Or(a, b), ctx) == Evaluate(a, ctx)
  {
  }

  /** The laws of negation hold for answers and errors alike. */
  lemma {:induction false} NegationLaws(a: Expression, b: Expression, ctx: SignalContext)
    ensures Evaluate(Not(Not(a)), ctx) == Evaluate(a, ctx)
    ensures Evaluate(Not(And(a, b)), ctx) == Evaluate(Or(Not(a), Not(b)), ctx)
    ensures Evaluate(Not(Or(a, b)), ctx) == Evaluate(And(Not(a), Not(b)), ctx)
  {
  }

  // ---------------------------------------------------------------- bare terms

  /** A bare signal holds exactly when it is there and true; it is an error exactly when it is there and no
      boolean. */
  lemma {:induction false} BareSignalIff(name: string, ctx: SignalContext)
    ensures Evaluate(Truthy(Signal(name)), ctx) == Ok(true) <==> name in ctx && ctx[name] == Bool(true)
    ensures Evaluate(Truthy(Signal(name)), ctx).Err? <==> name in ctx && !ctx[name].Bool?
    ensures Evaluate(Truthy(Lit(BoolLit(true))), ctx) == Ok(true)
    ensures Evaluate(Truthy(Lit(BoolLit(false))), ctx) == Ok(false)
  {
  }

  // ---------------------------------------------------------------- comparisons

  /** A missing side makes every comparison false. */
  lemma {:induction false} MissingIsFalse(lhs: Term, op: CompareOp, rhs: Term, ctx: SignalContext)
    requires ResolveTerm(lhs, ctx).None? || ResolveTerm(rhs, ctx).None?
    ensures Evaluate(Compare(lhs, op, rhs), ctx) == Ok(false)
  {
  }

  /** Where both numbers stand on the extended line; `NaN` stands nowhere. */
  predicate LineLess(a: Float, b: Float) {
    !a.NaN? && !b.NaN? && a != b && (a == Infinite(true) || b
      == Infinite(false) || (a.Finite? && b.Finite? && a.r < b.r))
  }

  ghost predicate Numbers(lhs: Term, rhs: Term, ctx: SignalContext, a: Float, b: Float) {
    ResolveTerm(lhs, ctx) == Some(Number(a)) && ResolveTerm(rhs, ctx) == Some(Number(b))
  }

  /** Numbers compare as they stand on the line. */
  lemma {:induction false} NumbersCompare(lhs: Term, rhs: Term, ctx: SignalContext, a: Float, b: Float)
    requires Numbers(lhs, rhs, ctx, a, b)
    ensures Evaluate(Compare(lhs, Lt, rhs), ctx) == Ok(LineLess(a, b))
    ensures Evaluate(Compare(lhs, Gt, rhs), ctx) == Ok(LineLess(b, a))
    ensures Evaluate(Compare(lhs, LtEq, rhs), ctx) == Ok(LineLess(a, b) || (a == b && !a.NaN?))
    ensures Evaluate(Compare(lhs, GtEq, rhs), ctx) == Ok(LineLess(b, a) || (a == b && !a.NaN?))
    ensures Evaluate(Compare(lhs, Eq, rhs), ctx) == Ok(a == b && !a.NaN?)
  {
  }

  predicate Ordered(op: CompareOp) {
    op in {Lt, LtEq, Gt, GtEq}
  }

  /** Order comparisons are errors exactly between two values that are not both numbers; the left side is
      blamed first. */
  lemma {:induction false} OrderErrsIff(lhs: Term, op: CompareOp, rhs: Term, ctx: SignalContext, l: SignalValue,
                                        r: SignalValue)
    requires Ordered(op) && ResolveTerm(lhs, ctx) == Some(l) && ResolveTerm(rhs, ctx) == Some(r)
    ensures Evaluate(Compare(lhs, op, rhs), ctx) == Err(LeftNotNumber) <==> !l.Number?
    ensures Evaluate(Compare(lhs, op, rhs), ctx) == Err(RightNotNumber) <==> l.Number? && !r.Number?
  {
  }

  /** Values of different types are never equal, others as usual; `!=` denies `==`. */
  lemma {:induction false} EqualityIs(lhs: Term, rhs: Term, ctx: SignalContext, l: SignalValue, r: SignalValue)
    requires ResolveTerm(lhs, ctx) == Some(l) && ResolveTerm(rhs, ctx) == Some(r)
    ensures Evaluate(Compare(lhs, Eq, rhs), ctx) == Ok(l == r && l != Number(NaN))
    ensures Evaluate(Compare(lhs, NotEq, rhs), ctx) == Evaluate(Not(Compare(lhs, Eq, rhs)), ctx)
  {
  }

  // ---------------------------------------------------------------- contains

  /** `needle` stands somewhere in `text`. */
  ghost predicate StandsIn(needle: string, text: string) {
    exists i: nat :: StandsAt(needle, text, i)
  }

  predicate StandsAt(needle: string, text: string, i: nat) {
    i <= |text| && needle <= text[i..]
  }

  lemma {:induction false} OccursIff(needle: string, text: string)
    ensures Occurs(needle, text) <==> StandsIn(needle, text)
  {
    if needle <= text {
      assert text[0..] == text;
      assert StandsAt(needle, text, 0);
    } else if text != [] {
      OccursIff(needle, text[1..]);
      if i: nat :| StandsAt(needle, text[1..], i) {
        assert text[i + 1..] == text[1..][i..];
        assert StandsAt(needle, text, i + 1);
      }
      if i: nat :| StandsAt(needle, text, i) {
          assert text[i..] == text[1..][i - 1..];
        assert StandsAt(needle, text[1..], i - 1);
      }
    } else {
      assert forall i: nat :: !StandsAt(needle, text, i);
    }
  }

  /** `contains` looks for an item in a list and for a piece in a text; anything else is an error. */
  lemma {:induction false} ContainsIff(lhs: Term, rhs: Term, ctx: SignalContext, l: SignalValue, r: SignalValue)
    requires ResolveTerm(lhs, ctx) == Some(l) && ResolveTerm(rhs, ctx) == Some(r)
    ensures var answer := Evaluate(Compare(lhs, Contains, rhs), ctx);
      && (answer == Ok(true) <==> r.Text? && ((l.TextList? && r.s in l.items) || (l.Text? && StandsIn(r.s, l.s))))
      && (answer.Err? <==> !(r.Text? && (l.TextList? || l.Text?)))
  {
    if l.Text? && r.Text? { OccursIff(r.s, l.s); }
  }

  // ---------------------------------------------------------------- numerals

  predicate AllDigits(s: string) {
    forall i | 0 <= i < |s| :: IsDigit(s[i])
  }

  /** The number a string of digits denotes. */
  function Digits(s: string): nat
    requires AllDigits(s)
  {
    if s == [] then 0 else 10 * Digits(s[..|s| - 1]) + (s[|s| - 1] as int - '0' as int)
  }

  function DigitOf(c: char): real
    requires IsDigit(c)
  {
    (c as int - '0' as int) as real
  }

  lemma {:induction false} DigitAppends(s: string, c: char, acc: real)
    requires AllDigits(s) && IsDigit(c)
    ensures DecimalFrom(s + [c], acc, None) == 10.0 * DecimalFrom(s, acc, None) + DigitOf(c)
  {
    if s == [] {
      assert s + [c] == [c] && [c][1..] == [];
    } else {
      assert (s + [c])[1..] == s[1..] + [c];
      DigitAppends(s[1..], c, acc * 10.0 + DigitValue(s[0]));
    }
  }

  lemma {:induction false} WholeIs(s: string)
    requires AllDigits(s)
    ensures DecimalFrom(s, 0.0, None) == Digits(s) as real
  {
    if s != [] {
      var n := |s| - 1;
      WholeIs(s[..n]);
      DigitAppends(s[..n], s[n], 0.0);
      assert s[..n] + [s[n]] == s;
    }
  }

  lemma {:induction false} ThenRest(s: string, rest: string, acc: real)
    requires AllDigits(s)
    ensures DecimalFrom(s + rest, acc, None) == DecimalFrom(rest, DecimalFrom(s, acc, None), None)
  {
    if s == [] {
      assert s + rest == rest;
    } else {
      assert (s + rest)[1..] == s[1..] + rest;
      ThenRest(s[1..], rest, acc * 10.0 + DigitValue(s[0]));
    }
  }

  /** All weights ten times as large: the value is. */
  lemma {:induction false} TenTimes(s: string, acc: real, unit: real, acc10: real, unit10: real)
    requires AllDigits(s) && acc10 == 10.0 * acc && unit10 == 10.0 * unit
    ensures DecimalFrom(s, acc10, Some(unit10)) == 10.0 * DecimalFrom(s, acc, Some(unit))
  {
    if s != [] {
      var a, u := BehindStep(s, acc, unit);
      var b, v := BehindStep(s, acc10, unit10);
      TenTimesOne(acc, unit, acc10, unit10, DigitValue(s[0]));
      TenTimes(s[1..], a, u, b, v);
    }
  }

  lemma BehindStep(s: string, acc: real, unit: real) returns (next: real, tenth: real)
    requires s != [] && IsDigit(s[0])
    ensures next == acc + unit * DigitValue(s[0]) && tenth == unit / 10.0
    ensures DecimalFrom(s, acc, Some(unit)) == DecimalFrom(s[1..], next, Some(tenth))
  {
    next, tenth := acc + unit * DigitValue(s[0]), unit / 10.0;
  }

  lemma TenTimesOne(acc: real, unit: real, acc10: real, unit10: real, d: real)
    requires acc10 == 10.0 * acc && unit10 == 10.0 * unit
    ensures acc10 + unit10 * d == 10.0 * (acc + unit * d) && unit10 / 10.0 == 10.0 * (unit / 10.0)
  {
  }

  lemma BehindTheDot(fraction: string, acc: real)
    ensures DecimalFrom("." + fraction, acc, None) == DecimalFrom(fraction, acc, Some(0.1))
  {
    assert ("." + fraction)[1..] == fraction;
  }

  lemma OneBehindTheDot(d: char, fraction: string, acc: real)
    requires IsDigit(d)
    ensures DecimalFrom("." + ([d] + fraction), acc, None)
         == DecimalFrom(fraction, acc + 0.1 * DigitOf(d), Some(0.01))
  {
    BehindTheDot([d] + fraction, acc);
    assert ([d] + fraction)[1..] == fraction;
  }

  /** A numeral without a dot denotes its digits. */
  lemma {:induction false} NumeralDenotes(whole: string)
    requires AllDigits(whole) && whole != ""
    ensures DecimalValue(whole) == DecimalValue(whole + ".") == Digits(whole) as real
  {
    WholeIs(whole);
    ThenRest(whole, ".", 0.0);
    BehindTheDot("", Digits(whole) as real);
    assert "." + "" == ".";
  }

  /** Moving the dot one place to the right is multiplying by ten. */
  lemma {:induction false} DotMoves(whole: string, d: char, fraction: string)
    requires AllDigits(whole) && whole != "" && IsDigit(d) && AllDigits(fraction)
    ensures DecimalValue(whole + [d] + ("." + fraction)) == 10.0 * DecimalValue(whole + ("." + ([d] + fraction)))
  {
    var acc := DecimalFrom(whole, 0.0, None);
    ThenRest(whole, "." + ([d] + fraction), 0.0);
    OneBehindTheDot(d, fraction, acc);
    ThenRest(whole + [d], "." + fraction, 0.0);
    DigitAppends(whole, d, 0.0);
    BehindTheDot(fraction, 10.0 * acc + DigitOf(d));
    TenTimes(fraction, acc + 0.1 * DigitOf(d), 0.01, 10.0 * acc + DigitOf(d), 0.1);
  }

  /** A minus sign negates. */
  lemma {:induction false} MinusNegates(lexeme: string)
    requires lexeme != "" && lexeme[0] != '-'
    ensures DecimalValue("-" + lexeme) == -DecimalValue(lexeme)
  {
    assert ("-" + lexeme)[1..] == lexeme;
  }
}
