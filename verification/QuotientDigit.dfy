/** One digit of Knuth's Algorithm D, as divide in vasnprintf.c computes it: guess
    the digit from the top limbs, correct the guess, subtract, and add back if the
    guess was still one too large. */
module QuotientDigit {
  import opened Powers
  import opened Limbs
  import opened Multiply

  lemma GuessGap(num: int, u0: int, v1: int, v0: int, q: int, c1: int)
    requires num == q * v1 + c1
    ensures num * BETA + u0 - q * (v1 * BETA + v0) == c1 * BETA + u0 - v0 * q
  {
    assert q * (v1 * BETA + v0) == (q * v1) * BETA + q * v0;
  }

  /** The two corrections are enough, and they are exact. */
  lemma GuessCorrected(num: int, u0: int, v1: int, v0: int, q: int, c1: int)
    requires 0 <= u0 < BETA && HALF <= v1 < BETA && 0 <= v0 < BETA && 0 <= q < BETA
    requires 0 <= c1 < BETA && num == q * v1 + c1
    requires c1 < v1 || q == BETA - 1
    ensures var c2, c3 := c1 * BETA + u0, v0 * q;
            var q' := if c3 <= c2 then q else if c3 - c2 > v1 * BETA + v0 then q - 2 else q - 1;
            0 <= q' && q' * (v1 * BETA + v0) <= num * BETA + u0
            && (q' == BETA - 1 || num * BETA + u0 < (q' + 1) * (v1 * BETA + v0))
  {
    var v := v1 * BETA + v0;
    var c2, c3 := c1 * BETA + u0, v0 * q;
    GuessGap(num, u0, v1, v0, q, c1);
    LimbProduct(v0, q);
    MulDistribute(q, v);
    if c3 > c2 {
      GuessPositive(v1, v0, q, c2, c3);
    }
  }

  lemma MulDistribute(q: int, v: int)
    ensures (q + 1) * v == q * v + v && (q - 1) * v == q * v - v && (q - 2) * v == q * v - 2 * v
  {}

  /** A guess that is too large by one or two was at least one or two. */
  lemma GuessPositive(v1: int, v0: int, q: int, c2: int, c3: int)
    requires HALF <= v1 < BETA && 0 <= v0 < BETA && 0 <= q < BETA && 0 <= c2 < c3 == v0 * q
    ensures q >= 1 && (c3 - c2 > v1 * BETA + v0 ==> q >= 2)
  {
    if q == 1 { assert c3 == v0; }
  }

  /** The guess of a quotient digit: the quotient of the top three limbs of r by the
      top two of b, or BETA - 1 if that is no limb. u2 is r[j + n], u1 and u0 the two
      limbs below it, v1 and v0 are b[n - 1] and b[n - 2]. */
  method GuessDigit(u2: Limb, u1: Limb, u0: Limb, v1: Limb, v0: Limb)
    returns (qStar: Limb)
    requires v1 >= HALF
    ensures var u, v := (u2 * BETA + u1) * BETA + u0, v1 * BETA + v0;
      qStar * v <= u && (qStar == BETA - 1 || u < (qStar + 1) * v)
  {
    ghost var u, v := (u2 * BETA + u1) * BETA + u0, v1 * BETA + v0;
    var c1: Limb;
    var bMsdd: TwoLimb := v1 * BETA + v0;
    ghost var num := u2 * BETA + u1;
    if u2 < v1 {
      var n: TwoLimb := u2 * BETA + u1;
      assert n < v1 * BETA;
      QuotientIsLimb(n, v1);
      qStar := n / v1;
      c1 := n % v1;
    } else {
      qStar := BETA - 1;
      c1 := (u1 + v1) % BETA;
      if u2 > v1 || c1 < v1 {
        return;
      }
    }
    assert num == qStar * v1 + c1;
    var c2: TwoLimb := c1 * BETA + u0;
    LimbProduct(v0, qStar);
    var c3: TwoLimb := v0 * qStar;
    GuessCorrected(num, u0, v1, v0, qStar, c1);
    if c3 > c2 {
      GuessPositive(v1, v0, qStar, c2, c3);
      qStar := qStar - 1;
      if c3 - c2 > bMsdd {
        qStar := qStar - 1;
      }
    }
  }

  lemma QuotientIsLimb(n: int, v: int)
    requires v > 0 && 0 <= n < v * BETA
    ensures 0 <= n / v < BETA && 0 <= n % v < v && n == (n / v) * v + n % v
  {
    var k := n / v;
    if k >= BETA { MulMono(v, BETA, k); }
  }

  /** The guess is the true digit or one more. Here r = rLow + p * u and
      b = bLow + p * v, where p is the weight of the limbs the guess did not look at. */
  lemma GuessBound(u: int, v: int, p: int, rLow: int, bLow: int, q: int, r: int, b: int)
    requires r == rLow + p * u && b == bLow + p * v
    requires v >= BETA && p > 0 && 0 <= rLow < p && 0 <= bLow < p && 0 <= q < BETA
    requires r < BETA * b
    requires q * v <= u && (q == BETA - 1 || u < (q + 1) * v)
    ensures (q - 1) * b <= r < (q + 1) * b
  {
    GuessNotBelow(u, v, p, rLow, bLow, q, r, b);
    GuessNotAbove(u, v, p, rLow, bLow, q, r, b);
  }

  lemma GuessNotBelow(u: int, v: int, p: int, rLow: int, bLow: int, q: int, r: int, b: int)
    requires r == rLow + p * u && b == bLow + p * v
    requires p > 0 && rLow < p && 0 <= bLow && 0 <= q < BETA
    requires r < BETA * b
    requires q == BETA - 1 || u < (q + 1) * v
    ensures r < (q + 1) * b
  {
    if q < BETA - 1 {
      MulMono(p, u + 1, (q + 1) * v);
      assert p * (u + 1) == p * u + p;
      assert p * ((q + 1) * v) == (q + 1) * (p * v);
      MulMono(q + 1, p * v, b);
    }
  }

  lemma GuessNotAbove(u: int, v: int, p: int, rLow: int, bLow: int, q: int, r: int, b: int)
    requires r == rLow + p * u && b == bLow + p * v
    requires v >= BETA && p > 0 && 0 <= rLow && 0 <= bLow < p && 0 <= q < BETA
    requires q * v <= u
    ensures (q - 1) * b <= r
  {
    MulMono(p, q * v, u);
    assert q * (p * v) == p * (q * v);
    assert q * b == q * bLow + q * (p * v);
    MulMono(bLow, q, BETA);
    MulMono(p, BETA, v);
    assert (q - 1) * b == q * b - b;
  }

  /** The limbs that a subtraction or addition at j works on. */
  ghost predicate OnlyAt(now: seq<Limb>, was: seq<Limb>, j: nat, n: nat) {
    |now| == |was| && j + n <= |now| && forall k :: 0 <= k < |now| && !(j <= k < j + n) ==> now[k] == was[k]
  }

  lemma BorrowStep(done: seq<Limb>, was: seq<Limb>, src: seq<Limb>, q: Limb,
                   carry: nat, d: Limb, s: Limb, e: Limb, hi: nat)
    requires |done| == |was| == |src|
    requires Val(done) == Val(was) - q * Val(src) + B(|done|) * carry
    requires d - q * s - carry == e - BETA * hi
    ensures Val(done + [e]) == Val(was + [d]) - q * Val(src + [s]) + B(|done| + 1) * hi
  {
    hide Val, B;
    ValSnoc(done, e);
    ValSnoc(was, d);
    ValSnoc(src, s);
    BNext(|done|);
    BorrowArithmetic(B(|done|), B(|done| + 1), Val(done), Val(done + [e]), Val(was), Val(was + [d]),
                     Val(src), Val(src + [s]), q, carry, d, s, e, hi);
  }

  /** The arithmetic of BorrowStep; primes mark the values one limb further on. */
  lemma BorrowArithmetic(p: int, p': int, done: int, done': int, was: int, was': int, src: int, src': int,
                         q: int, carry: int, d: int, s: int, e: int, hi: int)
    requires p' == BETA * p && done' == done + p * e && was' == was + p * d && src' == src + p * s
    requires done == was - q * src + p * carry
    requires d - q * s - carry == e - BETA * hi
    ensures done' == was' - q * src' + p' * hi
  {
    assert p * (d - q * s - carry) == p * d - p * (q * s) - p * carry;
    assert p * (e - BETA * hi) == p * e - p * (BETA * hi);
    assert p * (BETA * hi) == p' * hi;
    assert q * src' == q * src + q * (p * s);
    assert p * (q * s) == q * (p * s);
  }

  /** Subtract q * b from r[j..j + n]; the result is the borrow that is left for r[j + n]. */
  method SubtractMultiple(r: array<Limb>, j: nat, q: Limb, b: seq<Limb>) returns (cr: Limb)
    requires j + |b| <= r.Length
    modifies r
    ensures OnlyAt(r[..], old(r[..]), j, |b|)
    ensures Val(r[j..j + |b|]) == old(Val(r[j..j + |b|])) - q * Val(b) + B(|b|) * cr
  {
    hide Val, B;
    EmptyVal();
    var carry: TwoLimb := 0;
    ghost var was := r[..];
    assert r[j..j + 0] == [] && was[j..j + 0] == [] && b[..0] == [];
    for i := 0 to |b|
      invariant carry <= q
      invariant forall k :: 0 <= k < j || j + i <= k < r.Length ==> r[k] == was[k]
      invariant Val(r[j..j + i]) == Val(was[j..j + i]) - q * Val(b[..i]) + B(i) * carry
    {
      ghost var before, c := r[j..j + i], carry;
      LimbProduct(q, b[i]);
      assert q * b[i] <= q * (BETA - 1) by { MulMono(q, b[i], BETA - 1); }
      carry := carry + q * b[i] + (BETA - 1 - r[j + i]);
      BorrowStep(before, was[j..j + i], b[..i], q, c, was[j + i], b[i],
                 BETA - 1 - carry % BETA, carry / BETA);
      r[j + i] := BETA - 1 - carry % BETA;
      carry := carry / BETA;
      assert r[j..j + i] == before;
      ArraySliceNext(r, j, j + i);
      SliceNext(was, j, j + i);
      assert b[..i + 1] == b[..i] + [b[i]];
    }
    assert b[..|b|] == b;
    cr := carry;
  }

  lemma AddStep(done: seq<Limb>, was: seq<Limb>, src: seq<Limb>, carry: nat, d: Limb, s: Limb, e: Limb, hi: nat)
    requires |done| == |was| == |src|
    requires Val(done) + B(|done|) * carry == Val(was) + Val(src)
    requires e + BETA * hi == s + d + carry
    ensures Val(done + [e]) + B(|done| + 1) * hi == Val(was + [d]) + Val(src + [s])
  {
    assert Val(done) + B(|done|) * carry == Val(was) + 1 * Val(src);
    RowStep(done, was, src, 1, carry, d, s, e, hi);
  }

  /** Add b to r[j..j + n]; the carry out is forgotten, as r[j + n] is. */
  method AddBack(r: array<Limb>, j: nat, b: seq<Limb>) returns (ghost carryOut: nat)
    requires j + |b| <= r.Length
    modifies r
    ensures OnlyAt(r[..], old(r[..]), j, |b|)
    ensures carryOut <= 1
    ensures Val(r[j..j + |b|]) + B(|b|) * carryOut == old(Val(r[j..j + |b|])) + Val(b)
  {
    hide Val, B;
    EmptyVal();
    var carry: Limb := 0;
    ghost var was := r[..];
    assert r[j..j + 0] == [] && was[j..j + 0] == [] && b[..0] == [];
    for i := 0 to |b|
      invariant carry <= 1
      invariant forall k :: 0 <= k < j || j + i <= k < r.Length ==> r[k] == was[k]
      invariant Val(r[j..j + i]) + B(i) * carry == Val(was[j..j + i]) + Val(b[..i])
    {
      ghost var before := r[j..j + i];
      var source1, source2 := b[i], r[j + i];
      ghost var c := carry;
      r[j + i] := (source1 + source2 + carry) % BETA;
      var complement: Limb := BETA - 1 - source2;
      carry := if carry != 0 then (if source1 >= complement then 1 else 0)
               else (if source1 > complement then 1 else 0);
      AddStep(before, was[j..j + i], b[..i], c, was[j + i], b[i], r[j + i], carry);
      assert r[j..j + i] == before;
      ArraySliceNext(r, j, j + i);
      SliceNext(was, j, j + i);
      assert b[..i + 1] == b[..i] + [b[i]];
    }
    assert b[..|b|] == b;
    carryOut := carry;
  }
}
