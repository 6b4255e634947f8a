/** Natural powers and the few laws about them that exact decimal conversion needs. */
module Powers {

  function Pow(b: nat, e: nat): nat {
    if e == 0 then 1 else b * Pow(b, e - 1)
  }

  lemma MulSwap(a: int, b: int, x: int, y: int)
    ensures (a * b) * (x * y) == (a * x) * (b * y)
  {
    assert (a * b) * (x * y) == a * (b * (x * y));
    assert b * (x * y) == x * (b * y);
    assert a * (x * (b * y)) == (a * x) * (b * y);
  }

  lemma MulMono(p: int, x: int, y: int)
    requires 0 <= p && x <= y
    ensures p * x <= p * y && x * p <= y * p
  {}

  lemma MulStrict(p: int, x: int, y: int)
    requires 0 < p && x < y
    ensures p * x < p * y && x * p < y * p
  {}

  lemma {:induction false} PowAdd(b: nat, m: nat, n: nat)
    ensures Pow(b, m + n) == Pow(b, m) * Pow(b, n)
  {
    if m > 0 {
      PowAdd(b, m - 1, n);
      var x, y := Pow(b, m - 1), Pow(b, n);
      assert b * (x * y) == (b * x) * y;
    }
  }

  lemma {:induction false} PowPos(b: nat, e: nat)
    requires b > 0
    ensures Pow(b, e) >= 1
  {
    if e > 0 { PowPos(b, e - 1); }
  }

  lemma {:induction false} PowMono(b: nat, m: nat, n: nat)
    requires b > 0 && m <= n
    ensures Pow(b, m) <= Pow(b, n)
  {
    PowAdd(b, m, n - m);
    PowPos(b, n - m);
    PowPos(b, m);
    var x, y := Pow(b, m), Pow(b, n - m);
    assert x * y >= x;
  }

  lemma {:induction false} PowOfProduct(a: nat, b: nat, n: nat)
    ensures Pow(a * b, n) == Pow(a, n) * Pow(b, n)
  {
    if n > 0 {
      PowOfProduct(a, b, n - 1);
      MulSwap(a, b, Pow(a, n - 1), Pow(b, n - 1));
    }
  }

  lemma {:induction false} PowOfPow(b: nat, m: nat, n: nat)
    ensures Pow(Pow(b, m), n) == Pow(b, m * n)
  {
    if n > 0 {
      PowOfPow(b, m, n - 1);
      PowAdd(b, m, m * (n - 1));
      assert m + m * (n - 1) == m * n;
    } else {
      assert m * n == 0;
    }
  }

  lemma {:induction false} PowBaseMono(a: nat, b: nat, n: nat)
    requires a <= b
    ensures Pow(a, n) <= Pow(b, n)
  {
    hide Pow;
    if n == 0 {
      PowUnfolds(a, b, 0);
    } else {
      PowBaseMono(a, b, n - 1);
      PowUnfolds(a, b, n);
      MulMono(a, Pow(a, n - 1), Pow(b, n - 1));
      MulMono(Pow(b, n - 1), a, b);
    }
  }

  lemma PowUnfolds(a: nat, b: nat, n: nat)
    ensures if n == 0 then Pow(a, n) == 1 && Pow(b, n) == 1
            else Pow(a, n) == a * Pow(a, n - 1) && Pow(b, n) == b * Pow(b, n - 1)
  {}

  lemma {:induction false} PowStrictBase(a: nat, b: nat, n: nat)
    requires a < b && n > 0
    ensures Pow(a, n) < Pow(b, n)
  {
    hide Pow;
    PowBaseMono(a, b, n - 1);
    PowPos(b, n - 1);
    PowUnfolds(a, b, n);
    MulMono(a, Pow(a, n - 1), Pow(b, n - 1));
    MulMono(Pow(b, n - 1), a + 1, b);
    assert (a + 1) * Pow(b, n - 1) == a * Pow(b, n - 1) + Pow(b, n - 1);
  }
}
