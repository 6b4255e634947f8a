/** Division of bignums, rounded to the nearest integer, ties to even
    (divide in vasnprintf.c). */
module Divide {
  import opened Powers
  import opened Limbs
  import opened Multiply
  import opened Shift
  import opened QuotientDigit
  import opened LongDivision
  import opened Rounding

  /** The length of a without its zero top limbs. */
  method TrimmedLength(a: seq<Limb>) returns (len: nat)
    ensures len <= |a| && Normalised(a[..len]) && Val(a[..len]) == Val(a)
  {
    len := |a|;
    assert a[..len] == a;
    while len > 0 && a[len - 1] == 0
      invariant len <= |a| && Val(a[..len]) == Val(a)
    {
      ValDropZero(a[..len]);
      assert a[..len][..len - 1] == a[..len - 1];
      len := len - 1;
    }
  }

  lemma ShortStep(num: nat, den: nat, q: nat, r: nat, hi: nat, rem: nat, top: nat, x: nat, top': nat, hi': nat)
    requires top == hi * den + rem && num == rem * BETA + x && num == q * den + r
    requires top' == x + BETA * top && hi' == q + BETA * hi
    ensures top' == hi' * den + r
  {
    assert (q + BETA * hi) * den == q * den + BETA * (hi * den);
  }

  /** Single-precision division: the quotient goes to room[1..], the remainder is returned. */
  method DivideShort(room: array<Limb>, a: seq<Limb>, den: Limb) returns (remainder: Limb)
    requires den > 0 && room.Length >= |a| + 1
    modifies room
    ensures Val(a) == Val(room[1..|a| + 1]) * den + remainder && remainder < den
  {
    hide Val, B;
    EmptyVal();
    remainder := 0;
    var count := |a|;
    assert a[count..] == [] && room[1 + count..|a| + 1] == [];
    while count > 0
      invariant 0 <= count <= |a| && remainder < den
      invariant Val(a[count..]) == Val(room[1 + count..|a| + 1]) * den + remainder
    {
      ghost var hi, rem := room[1 + count..|a| + 1], remainder;
      count := count - 1;
      MulMono(BETA, remainder + 1, den);
      var num: TwoLimb := remainder * BETA + a[count];
      QuotientIsLimb(num, den);
      room[1 + count] := num / den;
      remainder := num % den;
      ValSuffixNext(a, count);
      SliceFirst(room[..], 1 + count, |a| + 1);
      assert room[..][1 + count..|a| + 1] == room[1 + count..|a| + 1];
      assert room[..][2 + count..|a| + 1] == hi;
      ShortStep(num, den, room[1 + count], remainder, Val(hi), rem, Val(a[count + 1..]), a[count],
                Val(a[count..]), Val(room[1 + count..|a| + 1]));
    }
    assert a[0..] == a;
  }

  /** The quotient has at most one zero limb on top. aS and bS are a and b shifted. */
  lemma QuotientTop(a: seq<Limb>, b: seq<Limb>, q: seq<Limb>, p: nat, aS: nat, bS: nat, r: nat)
    requires |b| > 0 && |a| >= |b| && Normalised(a) && |q| == |a| - |b| + 1 && p > 0
    requires aS == Val(a) * p && bS == Val(b) * p && aS == Val(q) * bS + r && r < bS
    ensures q[|q| - 1] == 0 ==> Normalised(q[..|q| - 1])
  {
    hide Val, B;
    var k := |q| - 1;
    if q[k] == 0 && k > 0 && q[k - 1] == 0 {
      ValDropZero(q);
      ValDropZero(q[..k]);
      assert q[..k][..k - 1] == q[..k - 1];
      ValBound(q[..k - 1]);
      ValBound(b);
      ValNormalisedLower(a);
      BAdd(k - 1, |b|);
      TopArithmetic(Val(a), Val(b), Val(q), p, aS, bS, r, B(k - 1), B(|b|));
    }
  }

  lemma TopArithmetic(a: nat, b: nat, q: nat, p: nat, aS: nat, bS: nat, r: nat, w: nat, v: nat)
    requires p > 0 && aS == a * p && bS == b * p && aS == q * bS + r && r < bS && q < w && b < v
    ensures a < w * v
  {
    assert (q + 1) * bS == q * bS + bS;
    assert (q + 1) * bS == ((q + 1) * b) * p;
    if a >= (q + 1) * b { MulMono(p, (q + 1) * b, a); }
    MulMono(b, q + 1, w);
    MulMono(w, b, v);
  }

  /** Limb i of twice r. */
  function TwiceLimb(r: seq<Limb>, i: nat): Limb {
    (if 0 < i <= |r| then r[i - 1] / HALF else 0) + (if i < |r| then (r[i] * 2) % BETA else 0)
  }

  function Twice(r: seq<Limb>, n: nat): seq<Limb> {
    if n == 0 then [] else Twice(r, n - 1) + [TwiceLimb(r, n - 1)]
  }

  lemma {:induction false} TwiceAt(r: seq<Limb>, n: nat)
    ensures |Twice(r, n)| == n
    ensures forall i :: 0 <= i < n ==> Twice(r, n)[i] == TwiceLimb(r, i)
  {
    if n > 0 { TwiceAt(r, n - 1); }
  }

  lemma {:induction false} TwicePrefix(r: seq<Limb>, n: nat)
    requires n <= |r|
    ensures Val(Twice(r, n)) + B(n) * (if n == 0 then 0 else r[n - 1] / HALF) == 2 * Val(r[..n])
  {
    hide Val, B;
    EmptyVal();
    if n == 0 {
      assert r[..0] == [];
    } else {
      TwicePrefix(r, n - 1);
      TwiceAt(r, n - 1);
      ValSnoc(Twice(r, n - 1), TwiceLimb(r, n - 1));
      ValPrefixNext(r, n - 1);
      BNext(n - 1);
      TwiceArithmetic(B(n - 1), B(n), if n == 1 then 0 else r[n - 2] / HALF, r[n - 1],
                      TwiceLimb(r, n - 1), r[n - 1] / HALF);
    }
  }

  lemma TwiceArithmetic(p: int, p': int, low: int, x: int, limb: int, high: int)
    requires p' == BETA * p && limb + BETA * high == low + 2 * x
    ensures p * limb + p' * high == p * low + 2 * (p * x)
  {
    assert p * (limb + BETA * high) == p * limb + p' * high by { assert p * (BETA * high) == p' * high; }
    assert p * (low + 2 * x) == p * low + 2 * (p * x);
  }

  lemma {:induction false} TwiceValue(r: seq<Limb>, n: nat)
    requires |r| < n
    ensures Val(Twice(r, n)) == 2 * Val(r)
    decreases n
  {
    hide Val, B;
    ValSnoc(Twice(r, n - 1), TwiceLimb(r, n - 1));
    TwiceAt(r, n - 1);
    if n == |r| + 1 {
      TwicePrefix(r, |r|);
      assert r[..|r|] == r;
    } else {
      TwiceValue(r, n - 1);
      assert B(n - 1) * 0 == 0;
    }
  }

  /** Whether the quotient must be incremented: r is compared with b / 2, limb by limb
      from the top, and a tie is decided by the lowest bit of q. */
  method MustRoundUp(r: seq<Limb>, b: seq<Limb>, qOdd: bool) returns (up: bool)
    requires Normalised(r) && Normalised(b) && Val(r) < Val(b)
    ensures up == (2 * Val(r) > Val(b) || (2 * Val(r) == Val(b) && qOdd))
  {
    hide Val;
    if |r| > |b| {
      LongerIsLarger(r, b);
      return true;
    }
    ghost var n := |b| + 1;
    ghost var twice, whole := Twice(r, n), b + [0];
    TwiceValue(r, n);
    TwiceAt(r, n);
    ValSnoc(b, 0);
    assert B(|b|) * 0 == 0;
    assert twice[n..] == whole[n..];
    var i := |b|;
    while true
      invariant 0 <= i <= |b| && twice[i + 1..] == whole[i + 1..]
      decreases i
    {
      var rI: Limb := (if i <= |r| && i > 0 then r[i - 1] / HALF else 0)
                    + (if i < |r| then (r[i] * 2) % BETA else 0);
      var bI: Limb := if i < |b| then b[i] else 0;
      assert rI == twice[i] && bI == whole[i];
      if rI > bI {
        ValCompare(whole, twice, i);
        return true;
      }
      if rI < bI {
        ValCompare(twice, whole, i);
        return false;
      }
      SuffixFirst(twice, i);
      SuffixFirst(whole, i);
      if i == 0 {
        break;
      }
      i := i - 1;
    }
    assert twice == twice[0..] && whole == whole[0..];
    return qOdd;
  }

  lemma LongerIsLarger(r: seq<Limb>, b: seq<Limb>)
    requires |r| > |b| && Normalised(r)
    ensures Val(r) > Val(b)
  {
    hide Val;
    ValNormalisedLower(r);
    ValBound(b);
    PowMono(BETA, |b|, |r| - 1);
  }

  /** Add one to the bignum at room[off..off + len], which may grow by a limb. */
  method Increment(room: array<Limb>, off: nat, len: nat) returns (newLen: nat)
    requires off + len < room.Length && Normalised(room[off..off + len])
    modifies room
    ensures len <= newLen <= len + 1 && off + newLen <= room.Length
    ensures Val(room[off..off + newLen]) == old(Val(room[off..off + len])) + 1
    ensures Normalised(room[off..off + newLen])
  {
    hide Val, B;
    ghost var start := room[..];
    ghost var was := start[off..off + len];
    for i := 0 to len
      invariant forall k :: off <= k < off + i ==> start[k] == BETA - 1 && room[k] == 0
      invariant forall k :: off + i <= k < room.Length ==> room[k] == start[k]
    {
      var limb := room[off + i];
      LimbSuccessor(limb);
      room[off + i] := (limb + 1) % BETA;
      if room[off + i] != 0 {
        IncrementedAt(was, room[off..off + len], i);
        return len;
      }
    }
    room[off + len] := 1;
    IncrementedAll(was, room[off..off + len + 1]);
    newLen := len + 1;
  }

  lemma LimbSuccessor(x: Limb)
    ensures (x + 1) % BETA == if x == BETA - 1 then 0 else x + 1
  {}

  lemma {:induction false} ValAllOnes(s: seq<Limb>)
    requires forall k :: 0 <= k < |s| ==> s[k] == BETA - 1
    ensures Val(s) == B(|s|) - 1
  {
    if |s| > 0 { ValAllOnes(s[1..]); }
  }

  lemma IncrementedAt(was: seq<Limb>, now: seq<Limb>, i: nat)
    requires |was| == |now| && i < |was|
    requires forall k :: 0 <= k < i ==> was[k] == BETA - 1 && now[k] == 0
    requires now[i] as int == was[i] as int + 1 && forall k :: i < k < |was| ==> now[k] == was[k]
    ensures Val(now) == Val(was) + 1
  {
    hide Val, B;
    ValSplit(was, i);
    ValSplit(now, i);
    ValSuffixNext(was, i);
    ValSuffixNext(now, i);
    assert was[i + 1..] == now[i + 1..];
    ValAllOnes(was[..i]);
    ValZeroes(now[..i]);
    var x := Val(was[i..]);
    assert B(i) * (x + 1) == B(i) * x + B(i);
  }

  lemma IncrementedAll(was: seq<Limb>, now: seq<Limb>)
    requires |now| == |was| + 1 && now[|was|] == 1
    requires forall k :: 0 <= k < |was| ==> was[k] == BETA - 1 && now[k] == 0
    ensures Val(now) == Val(was) + 1
  {
    hide Val, B;
    ValAllOnes(was);
    ValZeroes(now[..|was|]);
    ValPrefixNext(now, |was|);
    assert now[..|was| + 1] == now;
  }

  /** What the three kinds of division leave behind: the remainder in room[..rLen], the
      truncated quotient in room[qOff..qOff + qLen] with one spare limb above it, and
      the divisor bs, where a and b may both have been shifted left, by the factor p. */
  predicate Truncated(room: seq<Limb>, qOff: nat, qLen: nat, rLen: nat, bs: seq<Limb>, a: nat, b: nat, p: nat) {
    && rLen <= qOff && qOff + qLen < |room| && p > 0
    && Normalised(room[..rLen]) && Normalised(room[qOff..qOff + qLen]) && Normalised(bs)
    && Val(bs) == b * p && Val(room[..rLen]) < Val(bs)
    && a * p == Val(room[qOff..qOff + qLen]) * Val(bs) + Val(room[..rLen])
  }

  method Copy(src: seq<Limb>, dest: array<Limb>)
    requires |src| <= dest.Length
    modifies dest
    ensures dest[..|src|] == src
    ensures forall k :: |src| <= k < dest.Length ==> dest[k] == old(dest[k])
  {
    for i := 0 to |src|
      invariant forall k :: 0 <= k < i ==> dest[k] == src[k]
      invariant forall k :: i <= k < dest.Length ==> dest[k] == old(dest[k])
    {
      dest[i] := src[i];
    }
  }

  /** Case m < n: the quotient is zero and the remainder is a. */
  method DivideTrivial(room: array<Limb>, a: seq<Limb>, b: seq<Limb>) returns (qOff: nat, qLen: nat, rLen: nat)
    requires Normalised(a) && Normalised(b) && |a| < |b| && |a| < room.Length
    modifies room
    ensures Truncated(room[..], qOff, qLen, rLen, b, Val(a), Val(b), 1)
  {
    hide Val;
    EmptyVal();
    Copy(a, room);
    rLen, qOff, qLen := |a|, |a|, 0;
    LongerIsLarger(b, a);
    assert room[..][..rLen] == a && room[..][qOff..qOff] == [];
  }

  /** Case n = 1: single-precision division. */
  method DivideSingle(room: array<Limb>, a: seq<Limb>, b: seq<Limb>) returns (qOff: nat, qLen: nat, rLen: nat)
    requires Normalised(a) && Normalised(b) && |b| == 1 && |a| >= 1 && |a| + 1 < room.Length
    modifies room
    ensures Truncated(room[..], qOff, qLen, rLen, b, Val(a), Val(b), 1)
  {
    hide Val;
    EmptyVal();
    assert b == [b[0]];
    ValOne(b[0]);
    var remainder := DivideShort(room, a, b[0]);
    ghost var q := room[1..|a| + 1];
    rLen := 0;
    if remainder > 0 {
      room[0] := remainder;
      rLen := 1;
    }
    qOff, qLen := 1, |a|;
    assert room[1..|a| + 1] == q;
    ValOne(remainder);
    assert room[..][..rLen] == (if remainder > 0 then [remainder] else []);
    QuotientTop(a, b, q, 1, Val(a), Val(b), remainder);
    if room[qOff + qLen - 1] == 0 {
      ValDropZero(q);
      qLen := qLen - 1;
      assert q[..qLen] == room[..][qOff..qOff + qLen];
    } else {
      assert q == room[..][qOff..qOff + qLen];
    }
  }

  /** The top limbs of the shifted a are below the shifted b, so the loop may start. */
  lemma ShiftedTop(room: seq<Limb>, b: seq<Limb>)
    requires |room| > |b| >= 2 && room[|room| - 1] < HALF <= b[|b| - 1]
    ensures Val(room[|room| - |b|..]) < Val(b)
  {
    hide Val, B;
    var s := room[|room| - |b|..];
    ValTop(s);
    ValTop(b);
    MulMono(B(|b| - 1), s[|b| - 1] + 1, b[|b| - 1]);
  }

  /** b shifted left so that its top bit is set; no bit is shifted out. */
  method ShiftDivisor(b: seq<Limb>, s: nat) returns (bs: seq<Limb>)
    requires |b| >= 2 && s < 32 && HALF <= b[|b| - 1] * Pow(2, s) < BETA
    ensures |bs| == |b| && bs[|b| - 1] >= HALF && Val(bs) == Val(b) * Pow(2, s)
  {
    hide Val, B, Pow;
    bs := b;
    SmallPowersOfTwo();
    if s > 0 {
      var tmp := new Limb[|b|];
      var accu := ShiftLeft(b, s, tmp, 0);
      bs := tmp[..];
      assert tmp[0..0 + |b|] == bs;
      NothingShiftedOut(b, bs, s, accu);
    }
    ShiftedTopLimb(b, bs, Pow(2, s));
  }

  lemma NothingShiftedOut(b: seq<Limb>, bs: seq<Limb>, s: nat, accu: nat)
    requires |b| == |bs| > 0 && s < 32 && b[|b| - 1] * Pow(2, s) < BETA
    requires Val(bs) + B(|b|) * accu == Val(b) * Pow(2, s)
    ensures accu == 0 && Val(bs) == Val(b) * Pow(2, s)
  {
    hide Val, B, Pow;
    var k := |b| - 1;
    ValTop(b);
    BNext(k);
    PowAdd(2, s, 32 - s);
    PowPos(2, s);
    SmallPowersOfTwo();
    NothingOutArithmetic(Val(b), Val(bs), Pow(2, s), Pow(2, 32 - s), b[k], B(k), B(k + 1), accu);
  }

  lemma NothingOutArithmetic(b: nat, bs: nat, p: nat, t: nat, x: nat, w: nat, w': nat, accu: nat)
    requires p > 0 && p * t == BETA && x * p < BETA && b < (x + 1) * w && w' == BETA * w && bs + w' * accu == b * p
    ensures accu == 0 && bs == b * p
  {
    if x >= t { MulMono(p, t, x); }
    MulMono(p, x + 1, t);
    MulStrict(p, b, (x + 1) * w);
    assert ((x + 1) * w) * p == ((x + 1) * p) * w;
    MulMono(w, (x + 1) * p, BETA);
    if accu >= 1 { MulMono(w', 1, accu); }
  }

  lemma ShiftedTopLimb(b: seq<Limb>, bs: seq<Limb>, p: nat)
    requires |b| == |bs| > 0 && HALF <= b[|b| - 1] * p && Val(bs) == Val(b) * p
    ensures bs[|b| - 1] >= HALF
  {
    hide Val, B;
    var k := |b| - 1;
    ValTop(b);
    ValTop(bs);
    ShiftedTopArithmetic(Val(b), Val(bs), p, b[k], bs[k], B(k));
  }

  lemma ShiftedTopArithmetic(b: nat, bs: nat, p: nat, x: nat, y: nat, w: nat)
    requires HALF <= x * p && x * w <= b && bs == b * p && bs < (y + 1) * w
    ensures y >= HALF
  {
    MulMono(p, x * w, b);
    assert (x * w) * p == (x * p) * w;
    MulMono(w, HALF, x * p);
    if y + 1 <= HALF { MulMono(w, y + 1, HALF); }
  }

  /** a shifted left by the same number of bits, one limb longer. */
  method ShiftDividend(room: array<Limb>, a: seq<Limb>, s: nat)
    requires s < 32 && |a| < room.Length
    modifies room
    ensures Val(room[..|a| + 1]) == Val(a) * Pow(2, s) && room[|a|] < HALF
  {
    hide Val, B, Pow;
    SmallPowersOfTwo();
    ghost var low;
    if s == 0 {
      Copy(a, room);
      room[|a|] := 0;
      low := a;
      assert Val(a) * 1 == Val(a);
    } else {
      var accu := ShiftLeft(a, s, room, 0);
      ShiftIsSmallFactor(s);
      low := room[..|a|];
      assert room[0..0 + |a|] == low;
      room[|a|] := accu;
    }
    assert room[..|a| + 1] == low + [room[|a|]];
    ValSnoc(low, room[|a|]);
    assert B(|a|) * 0 == 0;
  }

  /** Case m >= n > 1: shift both, and run the division loop. */
  method DivideMultiple(room: array<Limb>, a: seq<Limb>, b: seq<Limb>)
    returns (qOff: nat, qLen: nat, rLen: nat, bs: seq<Limb>, ghost p: nat)
    requires Normalised(a) && Normalised(b) && |a| >= |b| >= 2 && |a| + 1 < room.Length
    modifies room
    ensures Truncated(room[..], qOff, qLen, rLen, bs, Val(a), Val(b), p)
  {
    hide Val, B, Pow;
    var n := |b|;
    var s := CountShift(b[n - 1]);
    p := Pow(2, s);
    PowPos(2, s);
    bs := ShiftDivisor(b, s);
    ShiftDividend(room, a, s);
    var top := |a| + 1;
    ghost var shifted := room[..top];
    ShiftedTop(shifted, bs);
    assert room[top - n..top] == shifted[top - n..];
    DivisionLoop(room, top, bs);
    ghost var q, r := room[n..top], room[..n];
    qOff, qLen := n, top - n;
    QuotientTop(a, b, q, p, Val(a) * p, Val(bs), Val(r));
    if room[qOff + qLen - 1] == 0 {
      ValDropZero(q);
      qLen := qLen - 1;
    }
    assert q[..qLen] == room[..][qOff..qOff + qLen];
    assert q[..|q|] == q;
    rLen := NormalisedLength(room, n);
    assert room[..][..rLen] == room[..rLen];
  }

  /** The rounding of a / b, from the truncated quotient of the shifted operands. */
  lemma RoundedFrom(a: nat, b: nat, p: nat, bs: nat, q: nat, r: nat, q': nat)
    requires b > 0 && p > 0 && bs == b * p && r < bs && a * p == q * bs + r
    requires q' == if 2 * r > bs || (2 * r == bs && q % 2 == 1) then q + 1 else q
    ensures RoundsTo(a, b, q')
  {
    assert (q + 1) * bs == q * bs + bs;
    assert RoundsTo(a * p, bs, q');
    assert p * a == a * p && p * b == bs;
    RoundsToScale(a, b, p, q');
  }

  lemma OddByLowLimb(q: seq<Limb>)
    ensures (|q| > 0 && q[0] % 2 == 1) <==> Val(q) % 2 == 1
  {
    if |q| > 0 {
      ValSuffixNext(q, 0);
      assert q[0..] == q;
    }
  }

  /** The end of every case: compare r with b / 2 and increment q where that rounds. */
  method RoundQuotient(room: array<Limb>, qOff: nat, qLen: nat, rLen: nat, bs: seq<Limb>,
                       ghost a: nat, ghost b: nat, ghost p: nat) returns (q: seq<Limb>)
    requires b > 0 && Truncated(room[..], qOff, qLen, rLen, bs, a, b, p)
    modifies room
    ensures RoundsTo(a, b, Val(q)) && Normalised(q)
  {
    hide Val;
    ghost var trunc, r := room[qOff..qOff + qLen], room[..rLen];
    assert room[..][..rLen] == r && room[..][qOff..qOff + qLen] == trunc;
    OddByLowLimb(trunc);
    var up := MustRoundUp(room[..rLen], bs, qLen > 0 && room[qOff] % 2 == 1);
    var len := qLen;
    if up {
      len := Increment(room, qOff, qLen);
    }
    q := room[qOff..qOff + len];
    RoundedFrom(a, b, p, Val(bs), Val(trunc), Val(r), Val(q));
  }

  /** The quotient of a and b, rounded. b must not be zero: divide calls abort then. */
  method Divide(a: seq<Limb>, b: seq<Limb>) returns (q: seq<Limb>)
    requires Val(b) > 0
    ensures RoundsTo(Val(a), Val(b), Val(q))
    ensures Normalised(q)
  {
    hide Val, B;
    var room := new Limb[|a| + 2];
    var aLen := TrimmedLength(a);
    var bLen := TrimmedLength(b);
    EmptyVal();
    assert b[..0] == [];
    var aN, bs := a[..aLen], b[..bLen];
    ghost var p := 1;
    var qOff, qLen, rLen;
    if aLen < bLen {
      qOff, qLen, rLen := DivideTrivial(room, aN, bs);
    } else if bLen == 1 {
      qOff, qLen, rLen := DivideSingle(room, aN, bs);
    } else {
      qOff, qLen, rLen, bs, p := DivideMultiple(room, aN, bs);
    }
    q := RoundQuotient(room, qOff, qLen, rLen, bs, Val(a), Val(b), p);
  }
}
