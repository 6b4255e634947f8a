/** How %e and %g find the decimal exponent: an approximate guess is repaired by trying
    it, and by trying one smaller exponent when the digits are 10...0
    (vasnprintf.c, lines 3873-3926 with precision p, lines 4021-4074 with precision
    p + 1; is_borderline). */
module Exponent {
  import opened Powers
  import opened Limbs
  import opened Rounding
  import opened Decimal
  import opened Scale10

  /** m * 2^e * 10^n as a real number. */
  ghost function X(m: nat, e: int, n: int): real
  {
    DenominatorPos(e, n);
    Numerator(m, e, n) as real / Denominator(e, n) as real
  }

  /** m * 2^e * 10^n rounded. */
  function Rounded(m: nat, e: int, n: int): nat
  {
    DenominatorPos(e, n);
    RoundHalfEven(Numerator(m, e, n), Denominator(e, n))
  }

  lemma RoundedIff(m: nat, e: int, n: int, y: nat)
    ensures IsScaled(m, e, n, y) <==> y == Rounded(m, e, n)
  {
    hide Numerator, Denominator, RoundsTo, RoundHalfEven;
    DenominatorPos(e, n);
    RoundsToIff(Numerator(m, e, n), Denominator(e, n), y);
  }

  lemma QuotientScale(a: real, b: real, c: real, d: real)
    requires b > 0.0 && d > 0.0 && c * b == 10.0 * (a * d)
    ensures c / d == 10.0 * (a / b)
  {
    var x, y := a / b, c / d;
    assert x * b == a && y * d == c;
    assert (y * d) * b == 10.0 * ((x * b) * d);
    assert (y - 10.0 * x) * (d * b) == 0.0;
  }

  lemma TenTimes(m: nat, e: int, n: int)
    ensures X(m, e, n + 1) == 10.0 * X(m, e, n)
  {
    hide Pow;
    DenominatorPos(e, n);
    DenominatorPos(e, n + 1);
    var a, b, c, d := Numerator(m, e, n), Denominator(e, n), Numerator(m, e, n + 1), Denominator(e, n + 1);
    assert c * b == 10 * (a * d) by {
      if n >= 0 {
        PowNext(10, n);
        TenTimesNumerator(m, Pow(2, Pos(e)), Pow(10, n), a, b, c);
      } else {
        PowNext(10, -n - 1);
        TenTimesDenominator(Pow(2, Pos(-e)), Pow(10, -n - 1), a, b, d);
      }
    }
    ToReals(a, b, c, d);
    QuotientScale(a as real, b as real, c as real, d as real);
  }

  lemma TenTimesNumerator(m: int, t: int, p: int, a: int, b: int, c: int)
    requires a == m * (t * p) && c == m * (t * (10 * p))
    ensures c * b == 10 * (a * b)
  {
    assert t * (10 * p) == 10 * (t * p);
    assert m * (10 * (t * p)) == 10 * a;
  }

  lemma TenTimesDenominator(t: int, p: int, a: int, b: int, d: int)
    requires d == t * p && b == t * (10 * p)
    ensures a * b == 10 * (a * d)
  {
    assert t * (10 * p) == 10 * d;
  }

  lemma ToReals(a: int, b: int, c: int, d: int)
    requires c * b == 10 * (a * d)
    ensures c as real * b as real == 10.0 * (a as real * d as real)
  {
    ProductInReals(c, b);
    ProductInReals(a, d);
  }

  lemma {:induction false} TenPowerTimes(m: nat, e: int, n: int, k: nat)
    ensures X(m, e, n + k) == X(m, e, n) * Pow(10, k) as real
  {
    hide X;
    if k == 0 {
      assert Pow(10, 0) as real == 1.0;
    } else {
      TenPowerTimes(m, e, n, k - 1);
      TenTimes(m, e, n + k - 1);
      assert Pow(10, k) as real == 10.0 * Pow(10, k - 1) as real;
      TenAssoc(X(m, e, n), Pow(10, k - 1) as real);
    }
  }

  lemma TenAssoc(x: real, t: real)
    ensures 10.0 * (x * t) == x * (10.0 * t)
  {}

  /** Rounding moves a number by at most one half. */
  lemma RoundedNear(m: nat, e: int, n: int)
    ensures Rounded(m, e, n) as real - 0.5 <= X(m, e, n) <= Rounded(m, e, n) as real + 0.5
  {
    hide Numerator, Denominator, RoundHalfEven;
    DenominatorPos(e, n);
    RoundHalfEvenMeets(Numerator(m, e, n), Denominator(e, n));
    NearInReals(Numerator(m, e, n), Denominator(e, n), Rounded(m, e, n));
  }

  lemma NearInReals(a: int, b: int, q: int)
    requires b > 0 && -b <= 2 * (a - q * b) <= b
    ensures q as real - 0.5 <= a as real / b as real <= q as real + 0.5
  {
    ProductInReals(q, b);
    NearQuotient(a as real, b as real, q as real);
  }

  lemma ProductInReals(x: int, y: int)
    ensures (x * y) as real == x as real * y as real
  {}

  lemma NearQuotient(a: real, b: real, q: real)
    requires b > 0.0 && -b <= 2.0 * (a - q * b) <= b
    ensures q - 0.5 <= a / b <= q + 0.5
  {
    var y := a / b - q;
    assert y * b == a - q * b;
    if y > 0.5 { RealMulStrict(0.5, y, b); }
    if y < -0.5 { RealMulStrict(y, -0.5, b); }
  }

  lemma RealMulStrict(x: real, y: real, b: real)
    requires x < y && b > 0.0
    ensures x * b < y * b
  {}

  /** The guess is within a tenth of the true exponent: 10^g <= 1.1 * x and
      x < 1.1 * 10^(g + 1), for x = m * 2^e. */
  ghost predicate GoodGuess(m: nat, e: int, g: int) {
    1.0 <= 1.1 * X(m, e, -g) && X(m, e, -g) < 11.0
  }

  /** The number whose digits are tried for exponent k. */
  function Try(m: nat, e: int, p: nat, k: int): nat { Rounded(m, e, p - k) }

  /** y is written with p + 1 digits. */
  predicate HasDigits(y: nat, p: nat) { Pow(10, p) <= y < Pow(10, p + 1) }

  /** k is the least exponent for which x, rounded to p digits after the point in
      units of 10^k, has exactly one digit before it. */
  ghost predicate LeastExponent(m: nat, e: int, p: nat, k: int) {
    && HasDigits(Try(m, e, p, k), p)
    && forall j :: j < k ==> Try(m, e, p, j) >= Pow(10, p + 1)
  }

  /** There is at most one such exponent, so that the result does not depend on the guess. */
  lemma LeastExponentUnique(m: nat, e: int, p: nat, k: int, k': int)
    requires LeastExponent(m, e, p, k) && LeastExponent(m, e, p, k')
    ensures k == k'
  {
    hide Rounded, Pow, Try;
  }

  lemma TenPositive(p: nat)
    ensures Pow(10, p) >= 1 && Pow(10, p + 1) == 10 * Pow(10, p)
  {
    PowPos(10, p);
  }

  /** What the guess says about the first try. */
  lemma FirstTry(m: nat, e: int, p: nat, g: int)
    requires GoodGuess(m, e, g)
    ensures var x, t := X(m, e, p - g), Pow(10, p) as real; t <= 1.1 * x && x < 11.0 * t
  {
    hide X, Pow;
    TenPositive(p);
    TenPowerTimes(m, e, -g, p);
    assert -g + p == p - g;
    var x0, t := X(m, e, -g), Pow(10, p) as real;
    FirstTryArithmetic(x0, t, X(m, e, p - g));
  }

  lemma FirstTryArithmetic(x0: real, t: real, x: real)
    requires t >= 1.0 && 1.0 <= 1.1 * x0 && x0 < 11.0 && x == x0 * t
    ensures t <= 1.1 * x && x < 11.0 * t
  {
    var low, high := 1.1 * x0 - 1.0, 11.0 - x0;
    assert low * t >= 0.0;
    assert low * t == 1.1 * x - t;
    assert high * t > 0.0;
    assert high * t == 11.0 * t - x;
  }

  /** The first try has p, p + 1 or p + 2 digits, so that the first abort is unreachable. */
  lemma FirstTryLength(m: nat, e: int, p: nat, g: int)
    requires GoodGuess(m, e, g)
    ensures var y := Try(m, e, p, g); 1 <= y && Pow(10, p) <= 10 * y && y < 100 * Pow(10, p)
  {
    hide X, Rounded, Pow;
    FirstTry(m, e, p, g);
    RoundedNear(m, e, p - g);
    TenPositive(p);
  }

  /** One digit too many: the next larger exponent is right. */
  lemma GuessTooLow(m: nat, e: int, p: nat, g: int)
    requires GoodGuess(m, e, g) && Try(m, e, p, g) >= Pow(10, p + 1)
    ensures HasDigits(Try(m, e, p, g + 1), p)
  {
    hide X, Rounded, Pow;
    FirstTry(m, e, p, g);
    TenPositive(p);
    TenTimes(m, e, p - (g + 1));
    RoundedNear(m, e, p - g);
    RoundedNear(m, e, p - (g + 1));
  }

  /** One digit too few: the next smaller exponent is right. */
  lemma GuessTooHigh(m: nat, e: int, p: nat, g: int)
    requires GoodGuess(m, e, g) && Try(m, e, p, g) < Pow(10, p)
    ensures HasDigits(Try(m, e, p, g - 1), p)
  {
    hide X, Rounded, Pow;
    FirstTry(m, e, p, g);
    TenPositive(p);
    TenTimes(m, e, p - g);
    RoundedNear(m, e, p - g);
    RoundedNear(m, e, p - (g - 1));
    assert p - g + 1 == p - (g - 1);
  }

  /** A smaller exponent never gives a smaller number. */
  lemma {:induction false} RoundedGrows(m: nat, e: int, p: nat, j: int, k: int)
    requires j < k && Try(m, e, p, k) >= Pow(10, p) + 1
    ensures Try(m, e, p, j) >= Pow(10, p + 1)
    decreases k - j
  {
    hide X, Rounded, Pow;
    TenPositive(p);
    TenTimes(m, e, p - k);
    RoundedNear(m, e, p - k);
    RoundedNear(m, e, p - (k - 1));
    assert p - k + 1 == p - (k - 1);
    if j < k - 1 { RoundedGrows(m, e, p, j, k - 1); }
  }

  /** Not borderline: the exponent is already the least. */
  lemma NotBorderline(m: nat, e: int, p: nat, k: int)
    requires HasDigits(Try(m, e, p, k), p) && Try(m, e, p, k) != Pow(10, p)
    ensures LeastExponent(m, e, p, k)
  {
    hide X, Rounded, Pow;
    forall j | j < k ensures Try(m, e, p, j) >= Pow(10, p + 1) {
      RoundedGrows(m, e, p, j, k);
    }
  }

  /** Borderline: the next smaller exponent decides. */
  lemma Borderline(m: nat, e: int, p: nat, k: int)
    requires Try(m, e, p, k) == Pow(10, p)
    ensures Try(m, e, p, k - 1) > Pow(10, p)
    ensures HasDigits(Try(m, e, p, k - 1), p) ==> LeastExponent(m, e, p, k - 1)
    ensures !HasDigits(Try(m, e, p, k - 1), p) ==> LeastExponent(m, e, p, k)
  {
    hide X, Rounded, Pow;
    TenPositive(p);
    TenTimes(m, e, p - k);
    RoundedNear(m, e, p - k);
    RoundedNear(m, e, p - (k - 1));
    assert p - k + 1 == p - (k - 1);
    forall j | j < k - 1 ensures Try(m, e, p, j) >= Pow(10, p + 1) {
      RoundedGrows(m, e, p, j, k - 1);
    }
  }

  /** The number of digits of a number, from its size. */
  lemma DigitCount(ds: seq<Digit>, p: nat)
    requires Canonical(ds) && DVal(ds) >= 1
    ensures |ds| == p + 1 <==> HasDigits(DVal(ds), p)
    ensures Pow(10, p) <= 10 * DVal(ds) ==> |ds| >= p
    ensures DVal(ds) < 100 * Pow(10, p) ==> |ds| <= p + 2
    ensures |ds| <= p <==> DVal(ds) < Pow(10, p)
  {
    hide DVal, Pow;
    CanonicalRange(ds);
    TenPowers();
    var k := |ds| - 1;
    assert Pow(10, k) <= DVal(ds) < Pow(10, k + 1);
    TenPositive(p);
    TenPositive(p + 1);
    if k < p { PowMono(10, k + 1, p); }
    if k > p { PowMono(10, p + 1, k); }
    if k + 1 < p { PowMono(10, k + 2, p); TenPositive(k + 1); }
    if k > p + 1 { PowMono(10, p + 2, k); }
  }

  /** The scan for p zeroes and a single one. */
  method IsBorderline(digits: seq<Digit>, precision: nat) returns (borderline: bool)
    requires Canonical(digits) && DVal(digits) >= 1
    ensures borderline <==> DVal(digits) == Pow(10, precision)
  {
    hide DVal, Pow;
    var i := 0;
    while i < precision
      invariant 0 <= i <= precision && i <= |digits|
      invariant forall j :: 0 <= j < i ==> digits[j] == 0
    {
      if i == |digits| || digits[i] != 0 {
        NotTenPower(digits, precision, i);
        return false;
      }
      i := i + 1;
    }
    if i == |digits| || digits[i] != 1 {
      NotTenPower(digits, precision, i);
      return false;
    }
    i := i + 1;
    if i == |digits| {
      TenPowerDigits(precision);
      assert digits == TenPower(precision);
      return true;
    }
    NotTenPower(digits, precision, i);
    return false;
  }

  /** The digits of 10^p. */
  function TenPower(p: nat): seq<Digit> { seq(p, i requires 0 <= i < p => 0) + [1] }

  lemma TenPowerDigits(p: nat)
    ensures Canonical(TenPower(p)) && DVal(TenPower(p)) == Pow(10, p)
  {
    hide DVal, Pow;
    var z: seq<Digit> := TenPower(p)[..p];
    assert TenPower(p) == z + [1];
    DValSnoc(z, 1);
    DValZeroes(z);
  }

  lemma NotTenPower(ds: seq<Digit>, p: nat, i: nat)
    requires Canonical(ds) && i <= |ds|
    requires |ds| != p + 1 || (i < |ds| && ds[i] != TenPower(p)[i])
    ensures DVal(ds) != Pow(10, p)
  {
    hide DVal, Pow;
    TenPowerDigits(p);
    if DVal(ds) == Pow(10, p) { CanonicalUnique(ds, TenPower(p)); }
  }

  /** What one try of an exponent k shows. */
  lemma Tried(m: nat, e: int, p: nat, g: int, k: int, adjusted: bool, ds: seq<Digit>)
    requires GoodGuess(m, e, g) && Canonical(ds) && DVal(ds) == Try(m, e, p, k)
    requires if adjusted then HasDigits(Try(m, e, p, k), p) else k == g
    ensures DVal(ds) >= 1 && p <= |ds| <= p + 2 && (adjusted ==> |ds| == p + 1)
    ensures |ds| == p + 1 <==> HasDigits(Try(m, e, p, k), p)
    ensures |ds| == p ==> HasDigits(Try(m, e, p, k - 1), p)
    ensures |ds| == p + 2 ==> HasDigits(Try(m, e, p, k + 1), p)
  {
    hide DVal, Rounded, Pow, GoodGuess;
    TenPositive(p);
    if adjusted {
      DigitCount(ds, p);
    } else {
      FirstTryLength(m, e, p, g);
      DigitCount(ds, p);
      if |ds| == p { GuessTooHigh(m, e, p, g); }
      if |ds| == p + 2 { GuessTooLow(m, e, p, g); }
    }
  }

  /** The digits and the exponent that %e prints for x = m * 2^e > 0 with p digits after
      the point; %g uses p = precision - 1. Neither abort of the C code is reachable
      from a good guess, and at most two exponents are tried. */
  method ExponentDigits(e: int, m: seq<Limb>, p: nat, guess: int) returns (digits: seq<Digit>, exponent: int)
    requires GoodGuess(Val(m), e, guess)
    ensures LeastExponent(Val(m), e, p, exponent)
    ensures |digits| == p + 1 && Canonical(digits)
    ensures IsScaled(Val(m), e, p - exponent, DVal(digits))
  {
    hide Val, DVal, X, Rounded, Pow, IsScaled, HasDigits, GoodGuess;
    ghost var v := Val(m);
    FirstTryLength(v, e, p, guess);
    exponent := guess;
    var adjusted := false;
    while true
      invariant !adjusted ==> exponent == guess
      invariant adjusted ==> HasDigits(Try(v, e, p, exponent), p)
      decreases !adjusted
    {
      digits := RoundDecimal(e, m, p - exponent);
      RoundedIff(v, e, p - exponent, DVal(digits));
      Tried(v, e, p, guess, exponent, adjusted, digits);
      if |digits| == p + 1 {
        break;
      }
      if |digits| < p || |digits| > p + 2 {
        assert false;
      }
      if adjusted {
        assert false;
      }
      if |digits| == p {
        exponent := exponent - 1;
      } else {
        exponent := exponent + 1;
      }
      adjusted := true;
    }
    var borderline := IsBorderline(digits, p);
    if borderline {
      Borderline(v, e, p, exponent);
      var digits2 := RoundDecimal(e, m, p - exponent + 1);
      assert p - exponent + 1 == p - (exponent - 1);
      RoundedIff(v, e, p - (exponent - 1), DVal(digits2));
      TenPositive(p);
      DigitCount(digits2, p);
      if |digits2| == p + 1 {
        digits := digits2;
        exponent := exponent - 1;
      }
    } else {
      NotBorderline(v, e, p, exponent);
    }
  }
}
