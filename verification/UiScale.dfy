/** The UI scale: cycling through fixed steps, or a clamped value. */
module UiScale {
  import opened Prelude

  /** How text is read as a number and a number is written. */
  datatype Numerals = Numerals(parse: string -> Option<Float>, show: Float -> string)

  const STEPS: seq<real> := [1.0, 1.25, 1.5, 1.75, 2.0]
  const USUAL := Finite(1.75)

  /** `NaN` stays what it is. */
  function Clamp(f: Float): (c: Float)
    ensures c.NaN? <==> f.NaN?
    ensures !c.NaN? ==> c.Finite? && 0.5 <= c.r <= 4.0
    ensures f.Finite? && 0.5 <= f.r <= 4.0 ==> c == f
  {
    match f
    case Finite(r) => Finite(if r < 0.5 then 0.5 else if r > 4.0 then 4.0 else r)
    case Infinite(negative) => Finite(if negative then 0.5 else 4.0)
    case NaN => NaN
  }

  predicate Near(step: real, f: Float) {
    f.Finite? && -0.000001 < step - f.r < 0.000001
  }

  /** The step a value stands on; one that stands on none counts as on the last. */
  function StepOf(f: Float): (i: nat)
    ensures i < |STEPS| && (Near(STEPS[i], f) || (i == 4 && forall k | 0 <= k < 5 :: !Near(STEPS[k], f)))
  {
    if Near(STEPS[0], f) then 0 else if Near(STEPS[1], f) then 1 else if Near(STEPS[2], f) then 2
    else if Near(STEPS[3], f) then 3 else 4
  }

  /** The scale asked for, given the stored one. */
  function ScaleAfter(numerals: Numerals, stored: Option<string>, value: string): Float {
    if value == "cycle" then
      var current := if stored.Some? then numerals.parse(stored.value) else None;
      Finite(STEPS[(StepOf(if current.Some? then current.value else USUAL) + 1) % 5])
    else
      var f := numerals.parse(value);
      Clamp(if f.Some? then f.value else USUAL)
  }

  /** What is written for a step is read as a value near that step. */
  ghost predicate StepsReadBack(numerals: Numerals) {
    forall i | 0 <= i < 5 ::
      var f := numerals.parse(numerals.show(Finite(STEPS[i]))); f.Some? && Near(STEPS[i], f.value)
  }

  /** The stored text after `k` cycles, starting from none. */
  function StoredAfter(numerals: Numerals, k: nat): Option<string> {
    if k == 0 then None else Some(numerals.show(ScaleAfter(numerals, StoredAfter(numerals, k - 1), "cycle")))
  }

  lemma NearOne(i: nat, f: Float)
    requires i < 5 && Near(STEPS[i], f)
    ensures StepOf(f) == i
  {
  }

  lemma StepsOn(numerals: Numerals, i: nat)
    requires StepsReadBack(numerals) && i < 5
    ensures ScaleAfter(numerals, Some(numerals.show(Finite(STEPS[i]))), "cycle") == Finite(STEPS[(i + 1) % 5])
  {
    var f := numerals.parse(numerals.show(Finite(STEPS[i])));
    NearOne(i, f.value);
  }

  /** The step of the cycle after `k` others. */
  function StepNumber(k: nat): (i: nat)
    ensures i < 5
  {
    if k == 0 then 4 else (StepNumber(k - 1) + 1) % 5
  }

  lemma {:induction false} StepNumberIs(k: nat)
    ensures StepNumber(k) == (k + 4) % 5
  {
    if k > 0 { StepNumberIs(k - 1); }
  }

  lemma {:induction false} CyclingSteps(numerals: Numerals, k: nat)
    requires StepsReadBack(numerals)
    ensures ScaleAfter(numerals, StoredAfter(numerals, k), "cycle") == Finite(STEPS[StepNumber(k)])
  {
    if k > 0 {
      CyclingSteps(numerals, k - 1);
      StepsOn(numerals, StepNumber(k - 1));
    } else {
      CyclingFirst(numerals);
    }
  }

  lemma CyclingFirst(numerals: Numerals)
    ensures ScaleAfter(numerals, None, "cycle") == Finite(STEPS[4])
  {
    NearOne(3, USUAL);
  }

  /** Cycling walks the five steps in order, from the usual one round and round. */
  lemma {:induction false} CyclingWalksTheSteps(numerals: Numerals, k: nat)
    requires StepsReadBack(numerals)
    ensures ScaleAfter(numerals, StoredAfter(numerals, k), "cycle") == Finite(STEPS[(k + 4) % 5])
  {
    CyclingSteps(numerals, k);
    StepNumberIs(k);
  }
}
