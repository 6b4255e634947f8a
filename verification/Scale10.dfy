/** round(m * 2^e * 10^n) in decimal digits (scale10_round_decimal_decoded in
    vasnprintf.c), for a bignum m and integers e and n of any sign. */
module Scale10 {
  import opened Powers
  import opened Limbs
  import opened Multiply
  import opened Shift
  import opened Divide
  import opened Decimal
  import opened Rounding

  function Pos(k: int): nat { if k > 0 then k else 0 }

  /** m * 2^e * 10^n as a fraction: the numerator and the denominator. */
  function Numerator(m: nat, e: int, n: int): nat { m * (Pow(2, Pos(e)) * Pow(10, Pos(n))) }
  function Denominator(e: int, n: int): nat { Pow(2, Pos(-e)) * Pow(10, Pos(-n)) }

  lemma DenominatorPos(e: int, n: int)
    ensures Denominator(e, n) > 0
  {
    PowPos(2, Pos(-e));
    PowPos(10, Pos(-n));
    MulStrict(Pow(2, Pos(-e)), 0, Pow(10, Pos(-n)));
  }

  /** y is m * 2^e * 10^n rounded to the nearest integer, ties to even. */
  predicate IsScaled(m: nat, e: int, n: int, y: nat) {
    RoundsTo(Numerator(m, e, n), Denominator(e, n), y)
  }

  /** 2^a * 5^b. */
  function TwoFive(a: nat, b: nat): nat { Pow(2, a) * Pow(5, b) }

  lemma TwoFiveProduct(a: nat, b: nat, c: nat, d: nat)
    ensures TwoFive(a, b) * TwoFive(c, d) == TwoFive(a + c, b + d)
  {
    hide Pow;
    PowAdd(2, a, c);
    PowAdd(5, b, d);
    MulSwap(Pow(2, a), Pow(5, b), Pow(2, c), Pow(5, d));
    MulSwap(Pow(2, a), Pow(2, c), Pow(5, b), Pow(5, d));
  }

  lemma TenIsTwoFive(n: nat)
    ensures Pow(10, n) == TwoFive(n, n)
  {
    PowOfProduct(2, 5, n);
  }

  lemma TwoTimesTen(a: nat, n: nat)
    ensures Pow(2, a) * Pow(10, n) == TwoFive(a + n, n)
  {
    hide Pow;
    TenIsTwoFive(n);
    PowAdd(2, a, n);
    TwoFiveAssoc(Pow(2, a), Pow(2, n), Pow(5, n));
  }

  lemma TwoFiveAssoc(x: int, y: int, z: int)
    ensures x * (y * z) == (x * y) * z
  {}

  lemma ScaledFraction(m: int, p: int, d': int, p': int, x: int, d: int, N: int, N': int)
    requires N == m * p && N' == m * p' && p * d' == (p' * x) * d
    ensures N * d' == (N' * x) * d
  {
    assert (m * p) * d' == m * (p * d');
    assert m * ((p' * x) * d) == ((m * p') * x) * d;
  }

  /** Factoring 10^x out: what remains of m * 2^e * 10^n is m * 2^s * 5^f. */
  lemma FactoredOut(m: nat, e: int, n: int, x: nat, s: int, f: int)
    requires s == e + n - x && f == n - x
    ensures Numerator(m, e, n) * TwoFive(Pos(-s), Pos(-f))
         == ((m * TwoFive(Pos(s), Pos(f))) * Pow(10, x)) * Denominator(e, n)
  {
    hide Pow, TwoFive;
    TwoTimesTen(Pos(e), Pos(n));
    TwoTimesTen(Pos(-e), Pos(-n));
    TenIsTwoFive(x);
    TwoFiveProduct(Pos(e) + Pos(n), Pos(n), Pos(-s), Pos(-f));
    TwoFiveProduct(Pos(s), Pos(f), x, x);
    TwoFiveProduct(Pos(s) + x, Pos(f) + x, Pos(-e) + Pos(-n), Pos(-n));
    assert Pos(e) + Pos(n) + Pos(-s) == Pos(s) + x + (Pos(-e) + Pos(-n));
    assert Pos(n) + Pos(-f) == Pos(f) + x + Pos(-n);
    ScaledFraction(m, TwoFive(Pos(e) + Pos(n), Pos(n)), TwoFive(Pos(-s), Pos(-f)), TwoFive(Pos(s), Pos(f)),
                   Pow(10, x), Denominator(e, n), Numerator(m, e, n), m * TwoFive(Pos(s), Pos(f)));
  }

  /** The result from the rounded rest z. If a power of ten was factored out, neither
      exponent is negative any more, so that z is exact. */
  lemma ScaledFrom(m: nat, e: int, n: int, x: nat, s: int, f: int, z: nat)
    requires s == e + n - x && f == n - x && (x > 0 ==> s >= 0 && f >= 0)
    requires RoundsTo(m * TwoFive(Pos(s), Pos(f)), TwoFive(Pos(-s), Pos(-f)), z)
    ensures IsScaled(m, e, n, z * Pow(10, x))
  {
    hide Pow, RoundsTo, Numerator, Denominator;
    FactoredOut(m, e, n, x, s, f);
    DenominatorPos(e, n);
    TwoFivePos(Pos(-s), Pos(-f));
    TenZero();
    var r, d := m * TwoFive(Pos(s), Pos(f)), TwoFive(Pos(-s), Pos(-f));
    if x > 0 {
      RoundsToInteger(r, 1);
      RoundsToUnique(r, 1, r, z);
      RoundsToInteger(z * Pow(10, x), Denominator(e, n));
    } else {
      assert r * Pow(10, 0) == r;
      RoundsToSameFraction(Numerator(m, e, n), Denominator(e, n), r, d, z);
    }
  }

  lemma TenZero()
    ensures Pow(10, 0) == 1 && TwoFive(0, 0) == 1
  {}

  lemma TwoFivePos(a: nat, b: nat)
    ensures TwoFive(a, b) > 0
  {
    PowPos(2, a);
    PowPos(5, b);
    MulStrict(Pow(2, a), 0, Pow(5, b));
  }

  /** The limbs that the C code allots to 5^|n|, and to 5^|n| shifted by |s| bits:
      (int) (|n| * (2.322 / 32)) + 1 + |s| / 32 + 1. */
  function FiveRoom(absN: nat): nat { (absN * 2322) / 32000 + 1 }
  function PowerRoom(absN: nat, absS: nat): nat { FiveRoom(absN) + absS / 32 + 1 }

  lemma LimbWeight(k: nat)
    ensures B(k) == Pow(2, 32 * k)
  {
    hide Pow;
    SmallPowersOfTwo();
    PowOfPow(2, 32, k);
  }

  lemma FivePowerTwoPower()
    ensures Pow(5, 205) <= Pow(2, 476)
  {
    hide Pow;
    FivePowers();
    SmallPowersOfTwo();
    PowAdd(5, 13, 13); PowAdd(5, 26, 13); PowAdd(5, 39, 2); PowAdd(5, 41, 41); PowAdd(5, 82, 82); PowAdd(5, 164, 41);
    PowAdd(2, 32, 32); PowAdd(2, 64, 64); PowAdd(2, 128, 128); PowAdd(2, 256, 128); PowAdd(2, 384, 64);
    PowAdd(2, 16, 8); PowAdd(2, 24, 4); PowAdd(2, 448, 28);
    assert Pow(5, 41) == 45474735088646411895751953125;
    assert Pow(2, 476) == 0x10000000_0000000000000000_00000000000000000000000000000000_0000000000000000000000000000000000000000000000000000000000000000;
  }

  const SMALL_POW5: seq<int> := [1, 5, 25, 125, 625, 3125, 15625, 78125, 390625, 1953125, 9765625,
                                 48828125, 244140625, 1220703125]

  lemma FivePowers()
    ensures |SMALL_POW5| == 14 && forall i :: 0 <= i <= 13 ==> SMALL_POW5[i] == Pow(5, i)
  {
    assert Pow(5, 0) == 1 && Pow(5, 1) == 5 && Pow(5, 2) == 25 && Pow(5, 3) == 125;
    assert Pow(5, 4) == 625 && Pow(5, 5) == 3125 && Pow(5, 6) == 15625 && Pow(5, 7) == 78125;
    assert Pow(5, 8) == 390625 && Pow(5, 9) == 1953125 && Pow(5, 10) == 9765625;
    assert Pow(5, 11) == 48828125 && Pow(5, 12) == 244140625 && Pow(5, 13) == 1220703125;
  }

  /** A power of five fits into the limbs allotted to it. */
  lemma FiveFits(absN: nat)
    ensures Pow(5, absN) < B(FiveRoom(absN))
  {
    hide Pow, B;
    var k := FiveRoom(absN);
    LimbWeight(k);
    if Pow(5, absN) >= Pow(2, 32 * k) {
      assert 32000 * k > 2322 * absN;
      PowOfPow(2, 32 * k, 205);
      PowOfPow(5, absN, 205);
      PowBaseMono(Pow(2, 32 * k), Pow(5, absN), 205);
      PowOfPow(5, 205, absN);
      PowOfPow(2, 476, absN);
      FivePowerTwoPower();
      PowBaseMono(Pow(5, 205), Pow(2, 476), absN);
      PowMono(2, 476 * absN + 1, 32 * k * 205);
      PowNext(2, 476 * absN);
      PowPos(2, 476 * absN);
    }
  }

  lemma FiveGrows(i: nat, j: nat, absN: nat)
    requires i + j <= absN
    ensures Pow(5, i) * Pow(5, j) == Pow(5, i + j) < B(FiveRoom(absN))
  {
    hide Pow, B;
    PowAdd(5, i, j);
    PowMono(5, i + j, absN);
    FiveFits(absN);
  }

  /** 5^|n|, thirteen factors of five at a time. */
  method PowerOfFive(pow5: array<Limb>, absN: nat) returns (len: nat)
    requires pow5.Length >= FiveRoom(absN)
    modifies pow5
    ensures 1 <= len <= absN * 2322 / 32000 + 1
    ensures Val(pow5[..len]) == Pow(5, absN) && Normalised(pow5[..len])
  {
    hide Val, B, Pow;
    pow5[0] := 1;
    len := 1;
    assert pow5[..1] == [1];
    ValOne(1);
    FivePowers();
    if absN > 0 {
      var n13 := 0;
      while n13 <= absN
        invariant 0 <= n13 <= absN + 13 && 1 <= len <= pow5.Length
        invariant Normalised(pow5[..len])
        invariant Val(pow5[..len]) == Pow(5, if n13 <= absN then n13 else absN)
      {
        var j := if n13 + 13 <= absN then 13 else absN - n13;
        FiveGrows(n13, j, absN);
        RoomMono(FiveRoom(absN), pow5.Length);
        assert SmallFactor(SMALL_POW5[j]) by { assert 1 <= SMALL_POW5[j] <= 1220703125; }
        len := ScaleInPlace(pow5, len, SMALL_POW5[j]);
        n13 := n13 + 13;
      }
    }
    FiveFits(absN);
    LengthBound(pow5[..len], FiveRoom(absN));
  }

  lemma RoomMono(k: nat, n: nat)
    requires k <= n
    ensures B(k) <= B(n)
  {
    PowMono(BETA, k, n);
  }

  lemma LengthBound(s: seq<Limb>, k: nat)
    requires Normalised(s) && Val(s) < B(k)
    ensures |s| <= k
  {
    hide Val, B;
    if |s| > k {
      ValNormalisedLower(s);
      RoomMono(k, |s| - 1);
    }
  }

  /** Shifting by |s| bits is shifting by |s| % 32 bits and then moving by |s| / 32 limbs. */
  lemma ShiftInLimbs(absS: nat)
    ensures Pow(2, absS) == B(absS / 32) * Pow(2, absS % 32)
  {
    hide Pow;
    LimbWeight(absS / 32);
    PowAdd(2, 32 * (absS / 32), absS % 32);
  }

  /** Zero limbs below a bignum are factors BETA. */
  lemma ValMoved(z: seq<Limb>, s: seq<Limb>)
    requires forall i :: 0 <= i < |z| ==> z[i] == 0
    ensures Val(z + s) == B(|z|) * Val(s)
  {
    hide Val, B;
    ValConcat(z, s);
    ValZeroes(z);
  }

  /** Multiply pow5[..len] by 2^|s|, in place. */
  method ShiftInPlace(pow5: array<Limb>, len0: nat, absS: nat) returns (len: nat)
    requires 1 <= len0 && len0 + absS / 32 + 1 <= pow5.Length && Normalised(pow5[..len0])
    modifies pow5
    ensures len <= pow5.Length
    ensures Val(pow5[..len]) == old(Val(pow5[..len0])) * Pow(2, absS)
  {
    hide Val, B, Pow;
    ghost var start := Val(pow5[..len0]);
    var sLimbs, sBits := absS / 32, absS % 32;
    len := len0;
    ShiftInLimbs(absS);
    PowerZero();
    assert start * 1 == start;
    if sBits > 0 {
      ShiftIsSmallFactor(sBits);
      ShiftedRoom(pow5[..len0], Pow(2, sBits), pow5.Length);
      len := ScaleInPlace(pow5, len, Pow(2, sBits));
    }
    ghost var scaled := pow5[..len];
    if sLimbs > 0 {
      MoveLimbs(pow5, len, sLimbs);
      len := len + sLimbs;
    }
    assert sLimbs == 0 ==> B(0) * Val(scaled) == Val(scaled);
    MovedValue(start, Val(scaled), Val(pow5[..len]), Pow(2, sBits), B(sLimbs), Pow(2, absS));
  }

  lemma PowerZero()
    ensures Pow(2, 0) == 1 && B(0) == 1
  {}

  lemma MovedValue(start: int, scaled: int, moved: int, p: int, w: int, all: int)
    requires scaled == start * p && moved == w * scaled && all == w * p
    ensures moved == start * all
  {
    assert w * (start * p) == start * (w * p);
  }

  lemma ShiftedRoom(s: seq<Limb>, p: int, room: nat)
    requires SmallFactor(p) && |s| + 1 <= room
    ensures Val(s) * p < B(room)
  {
    hide Val, B;
    ValBound(s);
    BNext(|s|);
    RoomMono(|s| + 1, room);
    MulStrict(p, Val(s), B(|s|));
    MulMono(B(|s|), p, BETA);
  }

  /** Move dest[..len] up by k limbs and clear the limbs below. */
  method MoveLimbs(dest: array<Limb>, len: nat, k: nat)
    requires len + k <= dest.Length && k > 0
    modifies dest
    ensures Val(dest[..len + k]) == B(k) * old(Val(dest[..len]))
  {
    hide Val, B;
    ghost var was := dest[..len];
    var count := len;
    while count > 0
      invariant 0 <= count <= len
      invariant forall i :: 0 <= i < count ==> dest[i] == was[i]
      invariant forall i :: count <= i < len ==> dest[k + i] == was[i]
    {
      count := count - 1;
      dest[k + count] := dest[count];
    }
    count := k;
    while count > 0
      invariant 0 <= count <= k
      invariant forall i :: count <= i < k ==> dest[i] == 0
      invariant forall i :: 0 <= i < len ==> dest[k + i] == was[i]
    {
      count := count - 1;
      dest[count] := 0;
    }
    ValMoved(dest[..k], was);
    assert dest[..len + k] == dest[..k] + was;
  }

  /** 2^|s| as a bignum at dest[off..]. */
  method PowerOfTwo(dest: array<Limb>, off: nat, absS: nat) returns (p: seq<Limb>)
    requires off + absS / 32 + 1 <= dest.Length
    modifies dest
    ensures Val(p) == Pow(2, absS)
  {
    hide Val, B, Pow;
    var sLimbs, sBits := absS / 32, absS % 32;
    for i := 0 to sLimbs
      invariant forall k :: off <= k < off + i ==> dest[k] == 0
    {
      dest[off + i] := 0;
    }
    ShiftIsSmallFactor(sBits);
    dest[off + sLimbs] := Pow(2, sBits);
    p := dest[off..off + sLimbs + 1];
    ValMoved(dest[off..off + sLimbs], [dest[off + sLimbs]]);
    ValOne(dest[off + sLimbs]);
    assert p == dest[off..off + sLimbs] + [dest[off + sLimbs]];
    ShiftInLimbs(absS);
  }

  /** The limbs of m * 2^sBits from off on; end is behind the last one. */
  method PutShifted(m: seq<Limb>, sBits: nat, num: array<Limb>, off: nat) returns (end: nat)
    requires sBits < 32 && off + |m| + 1 <= num.Length
    modifies num
    ensures off <= end <= num.Length && num[..off] == old(num[..off])
    ensures Val(num[off..end]) == Val(m) * Pow(2, sBits)
  {
    hide Val, B, Pow;
    ghost var start := num[..];
    end := off + |m|;
    if sBits > 0 {
      var accu := ShiftLeft(m, sBits, num, off);
      ghost var scaled := num[off..end];
      if accu > 0 {
        ShiftIsSmallFactor(sBits);
        num[end] := accu;
        end := end + 1;
        ValSnoc(scaled, accu);
        assert num[off..end] == scaled + [accu];
      } else {
        assert B(|m|) * 0 == 0;
      }
    } else {
      PowerZero();
      for i := 0 to |m|
        invariant num[..off] == start[..off] && num[off..off + i] == m[..i]
      {
        num[off + i] := m[i];
      }
      assert num[off..end] == m;
      assert Val(m) * 1 == Val(m);
    }
  }

  /** m * 2^|s| as a new bignum. */
  method ShiftedNumerator(m: seq<Limb>, absS: nat) returns (numerator: seq<Limb>)
    ensures Val(numerator) == Val(m) * Pow(2, absS)
  {
    hide Val, B, Pow;
    var sLimbs, sBits := absS / 32, absS % 32;
    ShiftInLimbs(absS);
    var num := new Limb[|m| + sLimbs + 1];
    for i := 0 to sLimbs
      invariant forall k :: 0 <= k < i ==> num[k] == 0
    {
      num[i] := 0;
    }
    ghost var low := num[..sLimbs];
    var end := PutShifted(m, sBits, num, sLimbs);
    numerator := num[..end];
    assert numerator == low + num[sLimbs..end];
    ValMoved(low, num[sLimbs..end]);
    MovedValue(Val(m), Val(num[sLimbs..end]), Val(numerator), Pow(2, sBits), B(sLimbs), Pow(2, absS));
  }

  /** The four ways to compute round(m * 2^s * 5^n), by the signs of s and n. */
  method RoundTwoFive(m: seq<Limb>, s: int, n: int) returns (z: seq<Limb>)
    ensures RoundsTo(Val(m) * TwoFive(Pos(s), Pos(n)), TwoFive(Pos(-s), Pos(-n)), Val(z))
    ensures Normalised(z)
  {
    hide Val, B, Pow, RoundsTo;
    var absN, absS := if n >= 0 then n else -n, if s >= 0 then s else -s;
    var pow5 := new Limb[PowerRoom(absN, absS)];
    var len := PowerOfFive(pow5, absN);
    ghost var v := Val(m);
    PowerZero();
    FiveZero();
    TwoFivePos(absS, absN);
    PowPos(2, absS);
    PowPos(5, absN);
    if (if n >= 0 then s >= 0 else s <= 0) {
      len := ShiftInPlace(pow5, len, absS);
      ghost var p := Val(pow5[..len]);
      assert p == TwoFive(absS, absN);
      if n >= 0 {
        z := Multiply.Multiply(m, pow5[..len]);
        RoundsToInteger(Val(z), 1);
        assert TwoFive(Pos(-s), Pos(-n)) == 1;
      } else {
        z := Divide.Divide(m, pow5[..len]);
        assert v * 1 == v;
      }
    } else if n >= 0 {
      var numerator := Multiply.Multiply(m, pow5[..len]);
      var denominator := PowerOfTwo(pow5, len, absS);
      z := Divide.Divide(numerator, denominator);
      assert Pow(2, absS) * 1 == Pow(2, absS);
    } else {
      var five := pow5[..len];
      var numerator := ShiftedNumerator(m, absS);
      z := Divide.Divide(numerator, five);
      assert Pow(2, absS) * 1 == Pow(2, absS);
    }
  }

  lemma FiveZero()
    ensures Pow(5, 0) == 1 && TwoFive(0, 0) == 1
    ensures forall a: nat :: TwoFive(a, 0) == Pow(2, a) && TwoFive(0, a) == Pow(5, a)
  {}

  /** The digits of round(m * 2^e * 10^n), low digit first. */
  method RoundDecimal(e: int, m: seq<Limb>, n: int) returns (digits: seq<Digit>)
    ensures IsScaled(Val(m), e, n, DVal(digits))
    ensures Canonical(digits)
  {
    hide Val, DVal, Pow, RoundsTo, TwoFive;
    var s, f, extraZeroes := e + n, n, 0;
    if s > 0 && f > 0 {
      extraZeroes := if s < f then s else f;
      s := s - extraZeroes;
      f := f - extraZeroes;
    }
    var z := RoundTwoFive(m, s, f);
    ScaledFrom(Val(m), e, n, extraZeroes, s, f, Val(z));
    var room := new Limb[|z|](i requires 0 <= i < |z| => z[i]);
    assert room[..|z|] == z;
    digits := ConvertToDecimal(room, |z|, extraZeroes);
  }
}
