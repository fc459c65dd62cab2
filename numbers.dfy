/** JavaScript numbers as far as the core needs them: finite values as
    `real`, and the three non-finite values that unary plus can produce. */
module Numbers {
  import Decimal

  datatype Num = Finite(value: real) | NaN | PosInfinity | NegInfinity

  /** `Number.isFinite(x)` for a value that is already a number. */
  predicate IsFinite(x: Num): (r: bool)
    ensures r <==> x !in {NaN, PosInfinity, NegInfinity}
  {
    x.Finite?
  }

  /** `x > 0`: false for NaN, true for +Infinity. */
  predicate IsPositive(x: Num): (r: bool)
    ensures r ==> x != NaN && x != NegInfinity
    ensures x == PosInfinity ==> r
    ensures IsFinite(x) ==> (r <==> x.value > 0.0)
  {
    match x
    case Finite(v) => v > 0.0
    case PosInfinity => true
    case _ => false
  }

  /** Unary plus on a text: `+""` is 0, a run of digits is its decimal value,
      anything else is read as NaN here. */
  function ToNumber(text: string): (r: Num)
    ensures r.Finite? <==> Decimal.AllDigits(text)
  {
    if Decimal.AllDigits(text) then Finite(Decimal.Value(text) as real) else NaN
  }

  /** The text rendering of an integer id converts back to that id, without loss. */
  lemma ToNumberOfRender(n: nat)
    ensures ToNumber(Decimal.Render(n)) == Finite(n as real)
  {
    Decimal.ValueOfRender(n);
  }
}
