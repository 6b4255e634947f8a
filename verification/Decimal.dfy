/** Conversion of a bignum to decimal digits, low digit first
    (convert_to_decimal in vasnprintf.c). A digit d stands for the character '0' + d. */
module Decimal {
  import opened Powers
  import opened Limbs
  import opened Shift
  import opened QuotientDigit
  import opened Divide

  type Digit = x: int | 0 <= x < 10

  const BILLION: nat := 1000000000

  /** The number written by digits, low digit first. */
  function DVal(ds: seq<Digit>): nat {
    if |ds| == 0 then 0 else ds[0] + 10 * DVal(ds[1..])
  }

  lemma {:induction false} DValConcat(s: seq<Digit>, t: seq<Digit>)
    ensures DVal(s + t) == DVal(s) + Pow(10, |s|) * DVal(t)
  {
    if |s| == 0 {
      assert s + t == t;
    } else {
      DValConcat(s[1..], t);
      assert (s + t)[1..] == s[1..] + t;
      var p, v := Pow(10, |s| - 1), DVal(t);
      assert 10 * (p * v) == (10 * p) * v;
    }
  }

  lemma DValOne(x: Digit)
    ensures DVal([x]) == x
  {}

  lemma DValSnoc(s: seq<Digit>, x: Digit)
    ensures DVal(s + [x]) == DVal(s) + Pow(10, |s|) * x
  {
    hide DVal, Pow;
    DValConcat(s, [x]);
    DValOne(x);
  }

  lemma {:induction false} DValBound(s: seq<Digit>)
    ensures DVal(s) < Pow(10, |s|)
  {
    if |s| > 0 { DValBound(s[1..]); }
  }

  lemma {:induction false} DValZeroes(s: seq<Digit>)
    requires forall i :: 0 <= i < |s| ==> s[i] == 0
    ensures DVal(s) == 0
  {
    if |s| > 0 { DValZeroes(s[1..]); }
  }

  /** No superfluous leading zero, and at least one digit. */
  predicate Canonical(ds: seq<Digit>) {
    |ds| >= 1 && (|ds| > 1 ==> ds[|ds| - 1] != 0)
  }

  /** A digit string of a given number of digits lies between two powers of ten. */
  lemma CanonicalRange(ds: seq<Digit>)
    requires Canonical(ds)
    ensures DVal(ds) < Pow(10, |ds|) && (|ds| > 1 ==> Pow(10, |ds| - 1) <= DVal(ds))
  {
    hide DVal;
    DValBound(ds);
    var k := |ds| - 1;
    assert ds == ds[..k] + [ds[k]];
    DValSnoc(ds[..k], ds[k]);
    if k > 0 { MulMono(Pow(10, k), 1, ds[k]); }
  }

  /** The digits are determined by the number. */
  lemma {:induction false} CanonicalUnique(s: seq<Digit>, t: seq<Digit>)
    requires Canonical(s) && Canonical(t) && DVal(s) == DVal(t)
    ensures s == t
  {
    if |s| == 1 || |t| == 1 {
      SingleDigit(s, t);
    } else {
      assert s[0] == t[0] && DVal(s[1..]) == DVal(t[1..]);
      CanonicalUnique(s[1..], t[1..]);
      assert s == [s[0]] + s[1..] && t == [t[0]] + t[1..];
    }
  }

  lemma SingleDigit(s: seq<Digit>, t: seq<Digit>)
    requires Canonical(s) && Canonical(t) && DVal(s) == DVal(t) && (|s| == 1 || |t| == 1)
    ensures s == t
  {
    CanonicalRange(s);
    CanonicalRange(t);
    if |s| > 1 { PowMono(10, 1, |s| - 1); }
    if |t| > 1 { PowMono(10, 1, |t| - 1); }
    assert DVal(s[1..]) == 0 || |s| > 1;
    assert DVal(t[1..]) == 0 || |t| > 1;
  }

  /** Divide room[..len] by ten to the ninth, in place. */
  method DivideByBillion(a: array<Limb>, len: nat) returns (remainder: Limb)
    requires len <= a.Length
    modifies a
    ensures old(Val(a[..len])) == Val(a[..len]) * BILLION + remainder && remainder < BILLION
    ensures forall k :: len <= k < a.Length ==> a[k] == old(a[k])
  {
    hide Val;
    EmptyVal();
    ghost var was := a[..len];
    remainder := 0;
    var count := len;
    assert was[count..] == [] && a[count..len] == [];
    while count > 0
      invariant 0 <= count <= len && remainder < BILLION
      invariant Val(was[count..]) == Val(a[count..len]) * BILLION + remainder
      invariant forall k :: 0 <= k < count ==> a[k] == was[k]
      invariant forall k :: len <= k < a.Length ==> a[k] == old(a[k])
    {
      ghost var hi, rem := a[count..len], remainder;
      count := count - 1;
      var num: TwoLimb := remainder * BETA + a[count];
      QuotientIsLimb(num, BILLION);
      a[count] := num / BILLION;
      remainder := num % BILLION;
      ValSuffixNext(was, count);
      SliceFirst(a[..], count, len);
      assert a[..][count..len] == a[count..len] && a[..][count + 1..len] == hi;
      ShortStep(num, BILLION, a[count], remainder, Val(hi), rem, Val(was[count + 1..]), was[count],
                Val(was[count..]), Val(a[count..len]));
    }
    assert was[0..] == was && a[0..len] == a[..len];
  }

  lemma DValEmpty()
    ensures DVal([]) == 0
  {}

  lemma DigitSliceNext(a: array<Digit>, i: nat, k: nat)
    requires i <= k < a.Length
    ensures a[i..k + 1] == a[i..k] + [a[k]]
  {}

  /** Moving one digit from the rest of a number to its digits. */
  lemma DigitStep(p: int, p': int, done: int, done': int, rest: int, x: int, hi: int, number: int)
    requires p' == 10 * p && done + p * rest == number && rest == 10 * hi + x && done' == done + p * x
    ensures done' + p' * hi == number
  {
    assert p * (10 * hi + x) == p' * hi + p * x by { assert p * (10 * hi) == p' * hi; }
  }

  /** Store a number below ten to the ninth as nine digits at c[d..]. */
  method StoreNine(c: array<Digit>, d: nat, number: nat)
    requires number < BILLION && d + 9 <= c.Length
    modifies c
    ensures DVal(c[d..d + 9]) == number
    ensures forall k :: 0 <= k < d || d + 9 <= k < c.Length ==> c[k] == old(c[k])
  {
    hide DVal, Pow;
    DValEmpty();
    TenPowers();
    var remainder := number;
    assert c[d..d + 0] == [];
    for i := 0 to 9
      invariant remainder >= 0
      invariant DVal(c[d..d + i]) + Pow(10, i) * remainder == number
      invariant forall k :: 0 <= k < d || d + 9 <= k < c.Length ==> c[k] == old(c[k])
    {
      ghost var done := c[d..d + i];
      c[d + i] := remainder % 10;
      assert c[d..d + i] == done;
      DigitSliceNext(c, d, d + i);
      DValSnoc(done, c[d + i]);
      PowNext(10, i);
      DigitStep(Pow(10, i), Pow(10, i + 1), DVal(done), DVal(c[d..d + i + 1]), remainder, c[d + i],
                remainder / 10, number);
      remainder := remainder / 10;
    }
    DValBound(c[d..d + 9]);
    if remainder >= 1 { MulMono(BILLION, 1, remainder); }
  }

  lemma PowNext(b: nat, e: nat)
    ensures Pow(b, e + 1) == b * Pow(b, e)
  {}

  lemma TenPowers()
    ensures Pow(10, 0) == 1 && Pow(10, 1) == 10 && Pow(10, 9) == BILLION
  {
    PowAdd(10, 3, 3);
    PowAdd(10, 6, 3);
  }

  /** Room for the digits of a bignum of n limbs, as the C code estimates it:
      9 * ((size_t) (n * (32 * 0.03345)) + 1). */
  function DigitRoom(n: nat): nat { 9 * ((n * 10704) / 10000 + 1) }

  lemma TwoPowerTenPower()
    ensures Pow(2, 289) <= Pow(10, 87)
  {
    hide Pow;
    SmallPowersOfTwo();
    PowAdd(2, 32, 32); PowAdd(2, 64, 64); PowAdd(2, 128, 128); PowAdd(2, 256, 32); PowAdd(2, 288, 1);
    TenPowers();
    PowAdd(10, 9, 9); PowAdd(10, 18, 9); PowAdd(10, 27, 1); PowAdd(10, 28, 1);
    PowAdd(10, 29, 29); PowAdd(10, 58, 29);
    assert Pow(2, 289) == 0x2_0000000000000000000000000000000000000000000000000000000000000000_00000000;
    assert Pow(10, 87) == 1000000000000000000000000000000000000000000000000000000000000000000000000000000000000000;
  }

  /** A number of n limbs has no digit left after 1.0704 * n groups of nine. */
  lemma GroupsFit(k: nat, n: nat)
    requires Pow(10, 9 * k) < B(n)
    ensures k <= (n * 10704) / 10000
  {
    hide Pow;
    if k > (n * 10704) / 10000 {
      var x := 9 * k;
      assert 10000 * k > n * 10704;
      assert 289 * x >= 87 * (32 * n);
      SmallPowersOfTwo();
      PowOfPow(2, 32, n);
      PowStrictBase(Pow(10, x), Pow(2, 32 * n), 289);
      PowOfPow(10, x, 289);
      PowOfPow(2, 32 * n, 289);
      PowOfPow(2, 289, 32 * n);
      PowOfPow(10, 87, 32 * n);
      TwoPowerTenPower();
      PowBaseMono(Pow(2, 289), Pow(10, 87), 32 * n);
      PowMono(10, 87 * (32 * n), x * 289);
    }
  }

  /** A normalised bignum loses at most one limb to a division by ten to the ninth. */
  lemma StaysNormalised(was: seq<Limb>, now: seq<Limb>, r: nat)
    requires |was| == |now| > 0 && Normalised(was)
    requires Val(was) == Val(now) * BILLION + r && r < BILLION
    ensures now[|now| - 1] == 0 ==> Normalised(now[..|now| - 1])
  {
    hide Val, B;
    var k := |now| - 1;
    if now[k] == 0 && k > 0 && now[k - 1] == 0 {
      ValDropZero(now);
      ValDropZero(now[..k]);
      assert now[..k][..k - 1] == now[..k - 1];
      ValBound(now[..k - 1]);
      ValNormalisedLower(was);
      BNext(k - 1);
    }
  }

  lemma StaysZero(was: seq<Limb>, now: seq<Limb>, r: nat)
    requires |was| == |now| > 0 && was[|was| - 1] == 0
    requires Val(was) == Val(now) * BILLION + r
    ensures now[|now| - 1] == 0
  {
    hide Val, B;
    var k := |now| - 1;
    ValDropZero(was);
    ValBound(was[..k]);
    ValTop(now);
    BPos(k);
    if now[k] > 0 { MulMono(B(k), 1, now[k]); }
  }

  lemma GroupArithmetic(p: int, p': int, done: int, done': int, rest: int, rest': int, r: int, number: int, w: int)
    requires p' == p * w && done + p * rest == number && rest == rest' * w + r && done' == done + p * r
    ensures done' + p' * rest' == number
  {
    assert p * (rest' * w + r) == p * (rest' * w) + p * r;
    assert p * (rest' * w) == p' * rest';
  }

  /** What the digit groups written so far say: the first d digits, and a for the rest.
      The second part bounds the number of groups k by the length n that a had at first. */
  predicate Converted(c: seq<Digit>, a: seq<Limb>, k: nat, n: nat, number: nat) {
    && DVal(c) + Pow(10, |c|) * Val(a) == number
    && (Normalised(a) || |a| + k == n)
  }

  /** One group of nine digits. */
  method ConvertGroup(a: array<Limb>, len: nat, c: array<Digit>, d: nat,
                      ghost k: nat, ghost n: nat, ghost number: nat) returns (newLen: nat)
    requires 0 < len <= a.Length && d + 9 <= c.Length
    requires Converted(c[..d], a[..len], k, n, number)
    modifies a, c
    ensures newLen <= len && Converted(c[..d + 9], a[..newLen], k + 1, n, number)
    ensures Val(a[..newLen]) < old(Val(a[..len])) || (newLen < len && Val(a[..newLen]) == old(Val(a[..len])))
  {
    hide Val, DVal, Pow;
    ghost var was, done := a[..len], c[..d];
    var remainder := DivideByBillion(a, len);
    StoreNine(c, d, remainder);
    ghost var now := a[..len];
    assert c[..d] == done && c[..d + 9] == done + c[d..d + 9];
    DValConcat(done, c[d..d + 9]);
    PowAdd(10, d, 9);
    TenPowers();
    GroupArithmetic(Pow(10, d), Pow(10, d + 9), DVal(done), DVal(c[..d + 9]), Val(was), Val(now), remainder, number, BILLION);
    newLen := len;
    if was[len - 1] == 0 {
      StaysZero(was, now, remainder);
    } else {
      StaysNormalised(was, now, remainder);
    }
    if a[len - 1] == 0 {
      newLen := len - 1;
      ValDropZero(now);
      assert now[..newLen] == a[..newLen];
    } else {
      ValNormalisedLower(now);
      BPos(len - 1);
    }
  }

  /** Where the groups fit: before another group is written there is room for it. */
  lemma RoomForGroup(c: seq<Digit>, a: seq<Limb>, k: nat, n: nat, number: nat, start: nat, extra: nat)
    requires Converted(c, a, k, n, number) && |a| > 0 && |c| == extra + 9 * k
    requires number == start * Pow(10, extra) && start < B(n)
    ensures 9 * k + 9 <= DigitRoom(n)
  {
    hide Val, DVal, B, Pow;
    if Normalised(a) {
      ValNormalisedLower(a);
      BPos(|a| - 1);
      PowAdd(10, extra, 9 * k);
      PowPos(10, extra);
      PowPos(10, |c|);
      GroupCount(Pow(10, |c|), Pow(10, extra), Pow(10, 9 * k), DVal(c), Val(a), start);
      GroupsFit(k, n);
    } else {
      assert k < n;
    }
  }

  lemma GroupCount(pc: int, pe: int, pk: int, done: int, rest: int, start: int)
    requires pc == pe * pk && pe > 0 && pc > 0 && rest >= 1 && done >= 0 && done + pc * rest == start * pe
    ensures pk <= start
  {
    MulMono(pc, 1, rest);
    if pk > start { MulStrict(pe, start, pk); }
  }

  /** Remove leading zeroes, but keep at least one zero. */
  method StripZeroes(ds: seq<Digit>) returns (digits: seq<Digit>)
    ensures DVal(digits) == DVal(ds) && Canonical(digits) && |digits| <= |ds| + 1
    ensures |ds| >= 1 ==> |digits| <= |ds|
  {
    hide DVal, Pow;
    var d := |ds|;
    assert ds[..d] == ds;
    while d > 0 && ds[d - 1] == 0
      invariant 0 <= d <= |ds| && DVal(ds[..d]) == DVal(ds)
    {
      assert ds[..d] == ds[..d - 1] + [ds[d - 1]];
      DValSnoc(ds[..d - 1], ds[d - 1]);
      assert Pow(10, d - 1) * 0 == 0;
      d := d - 1;
    }
    if d == 0 {
      DValEmpty();
      DValOne(0);
      assert ds[..0] == [];
      return [0];
    }
    return ds[..d];
  }

  /** The digits of a * 10^extraZeroes, low digit first. a is destroyed. The digits
      generated fit into 9 * (1.0704 * aLen + 1) + extraZeroes places. */
  method ConvertToDecimal(a: array<Limb>, aLen: nat, extraZeroes: nat) returns (digits: seq<Digit>)
    requires aLen <= a.Length
    modifies a
    ensures DVal(digits) == old(Val(a[..aLen])) * Pow(10, extraZeroes)
    ensures Canonical(digits)
    ensures |digits| <= 9 * (aLen * 10704 / 10000 + 1) + extraZeroes
  {
    hide Val, DVal, B, Pow;
    var c := new Digit[DigitRoom(aLen) + extraZeroes];
    ghost var start := Val(a[..aLen]);
    ghost var number, k := start * Pow(10, extraZeroes), 0;
    ValBound(a[..aLen]);
    var d := 0;
    while d < extraZeroes
      invariant 0 <= d <= extraZeroes
      invariant forall i :: 0 <= i < d ==> c[i] == 0
      invariant a[..aLen] == old(a[..aLen])
    {
      c[d] := 0;
      d := d + 1;
    }
    DValZeroes(c[..d]);
    var len := aLen;
    assert Converted(c[..d], a[..len], 0, aLen, number) by {
      assert Pow(10, d) * start == start * Pow(10, extraZeroes);
    }
    while len > 0
      invariant 0 <= len <= a.Length && d == extraZeroes + 9 * k && d <= c.Length
      invariant Converted(c[..d], a[..len], k, aLen, number)
      decreases Val(a[..len]), len
    {
      RoomForGroup(c[..d], a[..len], k, aLen, number, start, extraZeroes);
      len := ConvertGroup(a, len, c, d, k, aLen, number);
      d, k := d + 9, k + 1;
    }
    assert a[..len] == [];
    EmptyVal();
    assert Pow(10, d) * 0 == 0;
    digits := StripZeroes(c[..d]);
  }
}
