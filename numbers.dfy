/** Float64 arithmetic as far as the Brownian checkpoint store needs it: exact real
    arithmetic plus the quiet NaN that Go produces for 0/0 and propagates through
    every later addition, multiplication and square root. Rounding and the
    infinities are not modelled (an infinity cannot arise in the store for
    nonnegative query times). */
module Numbers {

  datatype Num = Fin(x: real) | NaN

  function Add(a: Num, b: Num): (r: Num)
    ensures r.Fin? <==> a.Fin? && b.Fin?
    ensures b == Fin(0.0) ==> r == a
    ensures a == Fin(0.0) ==> r == b
  {
    if a.Fin? && b.Fin? then Fin(a.x + b.x) else NaN
  }

  function Mul(a: Num, b: Num): (r: Num)
    ensures r.Fin? <==> a.Fin? && b.Fin?
    ensures a == Fin(0.0) && b.Fin? ==> r == Fin(0.0)
    ensures b == Fin(0.0) && a.Fin? ==> r == Fin(0.0)
    ensures a == Fin(1.0) ==> r == b
  {
    if a.Fin? && b.Fin? then Fin(a.x * b.x) else NaN
  }

  /** A nonzero finite value divided by zero is an infinity, which this model does
      not represent; callers show that it does not happen. */
  predicate DivDefined(a: Num, b: Num)
  {
    !(a.Fin? && a.x != 0.0 && b == Fin(0.0))
  }

  function Div(a: Num, b: Num): (r: Num)
    requires DivDefined(a, b)
    ensures r.Fin? <==> a.Fin? && b.Fin? && b.x != 0.0
    ensures a == Fin(0.0) && b.Fin? && b.x != 0.0 ==> r == Fin(0.0)
    ensures a == b && a.Fin? && a.x != 0.0 ==> r == Fin(1.0)
  {
    if a.Fin? && b.Fin? && b.x != 0.0 then
      assert a == b ==> a.x / b.x == 1.0 by { DivSelf(b.x); }
      Fin(a.x / b.x)
    else
      NaN
  }

  /** The square roots the model may use: nonnegative on nonnegative arguments and
      exact at zero, as math.Sqrt is. */
  ghost predicate IsSqrt(sqrt: real -> real)
  {
    sqrt(0.0) == 0.0 && forall x :: x >= 0.0 ==> sqrt(x) >= 0.0
  }

  function Sqrt(sqrt: real -> real, a: Num): (r: Num)
    requires a.Fin? ==> a.x >= 0.0
    ensures r.Fin? <==> a.Fin?
    ensures IsSqrt(sqrt) && r.Fin? ==> r.x >= 0.0
    ensures IsSqrt(sqrt) && a == Fin(0.0) ==> r == Fin(0.0)
  {
    if a.Fin? then Fin(sqrt(a.x)) else NaN
  }

  // Facts of real arithmetic that the solver does not find on its own.

  lemma DivSelf(x: real)
    requires x != 0.0
    ensures x / x == 1.0
  {
  }

  lemma NonnegProduct(a: real, b: real)
    requires a >= 0.0 && b >= 0.0
    ensures a * b >= 0.0
  {
  }

  lemma NonnegQuotient(a: real, b: real)
    requires a >= 0.0 && b > 0.0
    ensures a / b >= 0.0
  {
  }

  lemma ScaledBetween(b: real, d: real)
    requires 0.0 <= b <= 1.0 && d >= 0.0
    ensures 0.0 <= b * d <= d
  {
    NonnegProduct(1.0 - b, d);
    NonnegProduct(b, d);
  }

  /** Two nonnegative parts of a positive whole, as fractions of it, sum to 1. */
  lemma Weights(p: real, q: real, d: real)
    requires d > 0.0 && p >= 0.0 && q >= 0.0 && p + q == d
    ensures p / d + q / d == 1.0
    ensures 0.0 <= p / d <= 1.0 && 0.0 <= q / d <= 1.0
  {
    var a, b := p / d, q / d;
    assert a * d == p;
    assert b * d == q;
    assert (a + b - 1.0) * d == 0.0;
  }

  /** A convex combination of two numbers lies between them. */
  lemma WeightedSum(p: real, q: real, d: real, v0: real, v1: real)
    requires d > 0.0 && p >= 0.0 && q >= 0.0 && p + q == d
    ensures p / d * v0 + q / d * v1 == (p * v0 + q * v1) / d
    ensures v0 <= v1 ==> v0 <= p / d * v0 + q / d * v1 <= v1
    ensures v1 <= v0 ==> v1 <= p / d * v0 + q / d * v1 <= v0
  {
    var a, b := p / d, q / d;
    Weights(p, q, d);
    assert (a * v0 + b * v1) * d == p * v0 + q * v1;
    assert a * v0 + b * v1 == v0 + b * (v1 - v0);
    assert a * v0 + b * v1 == v1 + a * (v0 - v1);
    if v0 <= v1 {
      ScaledBetween(b, v1 - v0);
    } else {
      ScaledBetween(a, v0 - v1);
    }
  }
}
