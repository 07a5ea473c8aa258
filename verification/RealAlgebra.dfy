/** Products and quotients of reals, named so that proofs can treat them as they stand. */
module RealAlgebra {
  function Times(a: real, b: real): real { a * b }

  lemma {:induction false} TimesPositive(a: real, b: real)
    requires a > 0.0 && b > 0.0
    ensures Times(a, b) > 0.0
  {
  }

  lemma {:induction false} TimesNotNegative(a: real, b: real)
    requires a >= 0.0 && b >= 0.0
    ensures Times(a, b) >= 0.0
  {
  }

  lemma {:induction false} TimesMonotone(a: real, b: real, c: real)
    requires a >= 0.0 && b <= c
    ensures Times(a, b) <= Times(a, c)
  {
    TimesNotNegative(a, c - b);
    TimesAdds(a, b, c - b);
  }

  lemma {:induction false} TimesAdds(a: real, b: real, c: real)
    ensures Times(a, b + c) == Times(a, b) + Times(a, c)
  {
  }

  lemma {:induction false} TimesSwaps(a: real, b: real)
    ensures Times(a, b) == Times(b, a)
  {
  }

  lemma {:induction false} TimesAssociates(a: real, b: real, c: real)
    ensures Times(Times(a, b), c) == Times(a, Times(b, c))
  {
  }

  lemma {:induction false} TimesZero(a: real)
    ensures Times(a, 0.0) == 0.0 && Times(0.0, a) == 0.0 && Times(a, 1.0) == a && Times(1.0, a) == a
  {
  }

  lemma {:induction false} QuotientTimes(a: real, b: real)
    requires b != 0.0
    ensures Times(a / b, b) == a
  {
  }

  /** A quotient by something positive has the sign of what it divides, and is below one when that is smaller. */
  lemma {:induction false} QuotientRange(a: real, b: real)
    requires a >= 0.0 && b > 0.0
    ensures a / b >= 0.0 && (a / b < 1.0 <==> a < b)
  {
    var q := a / b;
    QuotientTimes(a, b);
    if q < 0.0 {
      TimesPositive(-q, b);
      TimesAdds(b, q, -q);
      TimesSwaps(b, q);
      TimesSwaps(b, -q);
      TimesZero(b);
    }
    TimesAdds(b, 1.0, q - 1.0);
    TimesAdds(b, q, 1.0 - q);
    TimesSwaps(b, q);
    TimesZero(b);
    if q < 1.0 {
      TimesPositive(b, 1.0 - q);
    } else {
      TimesNotNegative(b, q - 1.0);
    }
  }
}
