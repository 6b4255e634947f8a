/** Rounding a fraction a / b to the nearest integer, ties to even. */
module Rounding {
  import opened Powers

  /** q is a nearest integer to a / b, and the even one when a / b lies halfway. */
  predicate RoundsTo(a: int, b: int, q: int) {
    var d := 2 * (a - q * b);
    -b <= d <= b && ((d == b || d == -b) ==> q % 2 == 0)
  }

  /** The result as divide computes it: truncate, look at the remainder, maybe add one. */
  function RoundHalfEven(a: nat, b: nat): nat
    requires b > 0
  {
    var q, r := a / b, a % b;
    if 2 * r > b || (2 * r == b && q % 2 == 1) then q + 1 else q
  }

  lemma RoundHalfEvenMeets(a: nat, b: nat)
    requires b > 0
    ensures RoundsTo(a, b, RoundHalfEven(a, b))
  {
    var q, r := a / b, a % b;
    assert a == q * b + r;
    assert (q + 1) * b == q * b + b;
  }

  lemma RoundsToUnique(a: nat, b: nat, p: nat, q: nat)
    requires b > 0 && RoundsTo(a, b, p) && RoundsTo(a, b, q)
    ensures p == q
  {
    RoundsToOrder(a, a, b, p, q);
    RoundsToOrder(a, a, b, q, p);
  }

  /** Over one denominator, a larger numerator does not round to less. */
  lemma RoundsToOrder(a: int, c: int, b: int, p: int, q: int)
    requires b > 0 && a <= c && RoundsTo(a, b, p) && RoundsTo(c, b, q)
    ensures p <= q
  {
    if q < p {
      var k := p - q;
      assert p * b == q * b + k * b;
      MulMono(b, if k >= 2 then 2 else 1, k);
    }
  }

  /** The declarative and the computed form agree. */
  lemma RoundsToIff(a: nat, b: nat, q: nat)
    requires b > 0
    ensures RoundsTo(a, b, q) <==> q == RoundHalfEven(a, b)
  {
    RoundHalfEvenMeets(a, b);
    if RoundsTo(a, b, q) { RoundsToUnique(a, b, q, RoundHalfEven(a, b)); }
  }

  /** A common factor of numerator and denominator does not matter. */
  lemma RoundsToScale(a: int, b: int, k: int, q: int)
    requires k > 0
    ensures RoundsTo(k * a, k * b, q) <==> RoundsTo(a, b, q)
  {
    var d := 2 * (a - q * b);
    assert q * (k * b) == k * (q * b);
    assert 2 * (k * a - k * (q * b)) == k * d;
    ScaleOrder(k, d, b);
    ScaleOrder(k, -b, d);
    assert k * -b == -(k * b);
  }

  lemma ScaleOrder(k: int, x: int, y: int)
    requires k > 0
    ensures k * x <= k * y <==> x <= y
    ensures k * x == k * y <==> x == y
  {
    if x < y { MulStrict(k, x, y); }
    if y < x { MulStrict(k, y, x); }
  }

  /** Fractions with equal values round alike. */
  lemma RoundsToSameFraction(a: nat, b: nat, c: nat, d: nat, q: nat)
    requires b > 0 && d > 0 && a * d == c * b
    ensures RoundsTo(a, b, q) <==> RoundsTo(c, d, q)
  {
    RoundsToScale(a, b, d, q);
    RoundsToScale(c, d, b, q);
    assert d * a == b * c && d * b == b * d;
  }

  /** Rounding is monotone in the fraction. */
  lemma RoundsToMonotone(a: nat, b: nat, p: nat, c: nat, d: nat, q: nat)
    requires b > 0 && d > 0 && a * d <= c * b
    requires RoundsTo(a, b, p) && RoundsTo(c, d, q)
    ensures p <= q
  {
    RoundsToScale(a, b, d, p);
    RoundsToScale(c, d, b, q);
    assert d * a <= b * c && d * b == b * d;
    RoundsToOrder(d * a, b * c, d * b, p, q);
  }

  /** An integer rounds to itself. */
  lemma RoundsToInteger(q: nat, b: nat)
    requires b > 0
    ensures RoundsTo(q * b, b, q)
  {}
}
