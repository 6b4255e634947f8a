/** Shifting a bignum left by fewer bits than a limb has. */
module Shift {
  import opened Powers
  import opened Limbs

  lemma SmallPowersOfTwo()
    ensures Pow(2, 0) == 1 && Pow(2, 1) == 2 && Pow(2, 2) == 4 && Pow(2, 4) == 0x10 && Pow(2, 8) == 0x100
    ensures Pow(2, 16) == 0x10000 && Pow(2, 31) == HALF && Pow(2, 32) == BETA
  {
    PowAdd(2, 2, 2);
    PowAdd(2, 4, 4);
    PowAdd(2, 8, 8);
    PowAdd(2, 16, 16);
  }

  /** msd is msd0 shifted right by 31 - s bits. */
  predicate ShiftedRight(msd0: int, msd: int, s: nat) {
    s <= 31 && msd * Pow(2, 31 - s) <= msd0 < (msd + 1) * Pow(2, 31 - s)
  }

  lemma ShiftRightMore(msd0: int, msd: int, s: nat, k: nat, c: int, msd': int)
    requires ShiftedRight(msd0, msd, s) && k <= s && c == Pow(2, k)
    requires c * msd' <= msd < c * (msd' + 1)
    ensures ShiftedRight(msd0, msd', s - k)
  {
    hide Pow;
    PowAdd(2, k, 31 - s);
    PowPos(2, 31 - s);
    ShiftRightArithmetic(Pow(2, 31 - s), Pow(2, 31 - (s - k)), c, msd0, msd, msd');
  }

  lemma ShiftRightArithmetic(u: int, u': int, c: int, msd0: int, msd: int, msd': int)
    requires u > 0 && u' == c * u && msd * u <= msd0 < (msd + 1) * u
    requires c * msd' <= msd < c * (msd' + 1)
    ensures msd' * u' <= msd0 < (msd' + 1) * u'
  {
    MulMono(u, c * msd', msd);
    MulMono(u, msd + 1, c * (msd' + 1));
    assert (c * msd') * u == msd' * u';
    assert (c * (msd' + 1)) * u == (msd' + 1) * u';
  }

  /** One test of the search for the top bit: if msd has k more bits, shift them out. */
  method CountShiftBy(ghost msd0: int, msd0': int, s0: nat, k: nat, c: int) returns (msd: int, s: nat)
    requires ShiftedRight(msd0, msd0', s0) && k <= s0 && c == Pow(2, k) && 0 < msd0' < c * c && c > 1
    ensures ShiftedRight(msd0, msd, s) && 0 < msd < c && s0 - k <= s <= s0
  {
    hide Pow;
    msd, s := msd0', s0;
    if msd >= c {
      QuotientBounds(msd, c);
      ShiftRightMore(msd0, msd, s, k, c, msd / c);
      msd, s := msd / c, s - k;
    }
  }

  lemma QuotientBounds(x: int, c: int)
    requires c > 1 && c <= x < c * c
    ensures 0 < x / c < c && c * (x / c) <= x < c * (x / c + 1)
  {
    var q := x / c;
    assert x == c * q + x % c;
    if q >= c { MulMono(c, c, q); }
    if q <= 0 { MulMono(c, q, 0); }
  }

  /** The number of bits by which a nonzero limb must be shifted to set its top bit. */
  method CountShift(msd0: Limb) returns (s: nat)
    requires msd0 > 0
    ensures s < 32 && HALF <= msd0 * Pow(2, s) < BETA
  {
    hide Pow;
    SmallPowersOfTwo();
    var msd := msd0;
    s := 31;
    msd, s := CountShiftBy(msd0, msd, s, 16, 0x10000);
    msd, s := CountShiftBy(msd0, msd, s, 8, 0x100);
    msd, s := CountShiftBy(msd0, msd, s, 4, 0x10);
    msd, s := CountShiftBy(msd0, msd, s, 2, 4);
    msd, s := CountShiftBy(msd0, msd, s, 1, 2);
    TopBitSet(msd0, s);
  }

  lemma TopBitSet(msd0: int, s: nat)
    requires ShiftedRight(msd0, 1, s)
    ensures HALF <= msd0 * Pow(2, s) < BETA
  {
    hide Pow;
    PowAdd(2, 31 - s, s);
    SmallPowersOfTwo();
    PowPos(2, s);
    MulMono(Pow(2, s), Pow(2, 31 - s), msd0);
    MulStrict(Pow(2, s), msd0, 2 * Pow(2, 31 - s));
    assert (2 * Pow(2, 31 - s)) * Pow(2, s) == 2 * (Pow(2, 31 - s) * Pow(2, s));
  }

  /** A shift by s < 32 bits multiplies by Pow(2, s), and a power of five below BETA by
      itself: both are small factors, so that a limb times one plus a carry fits. */
  predicate SmallFactor(p: int) { 1 <= p <= HALF }

  lemma ShiftIsSmallFactor(s: nat)
    requires s < 32
    ensures SmallFactor(Pow(2, s))
  {
    PowPos(2, s);
    PowMono(2, s, 31);
    SmallPowersOfTwo();
  }

  /** One limb scaled: what is stored and what goes on to the next limb. */
  method ScaleLimb(accu: TwoLimb, x: Limb, p: int) returns (low: Limb, high: TwoLimb)
    requires SmallFactor(p) && accu < p
    ensures low + BETA * high == accu + x * p && high < p
  {
    MulMono(p, x, BETA - 1);
    var t: TwoLimb := accu + x * p;
    low, high := t % BETA, t / BETA;
  }

  lemma ScaleStep(done: seq<Limb>, src: seq<Limb>, p: int, accu: nat, x: Limb, low: Limb, high: nat)
    requires |done| == |src| && Val(done) + B(|done|) * accu == Val(src) * p
    requires low + BETA * high == accu + x * p
    ensures Val(done + [low]) + B(|done| + 1) * high == Val(src + [x]) * p
  {
    hide Val, B;
    ValSnoc(done, low);
    ValSnoc(src, x);
    BNext(|done|);
    ScaleArithmetic(B(|done|), B(|done| + 1), Val(done), Val(done + [low]), Val(src), Val(src + [x]), p, accu, x, low, high);
  }

  lemma ScaleArithmetic(w: int, w': int, done: int, done': int, src: int, src': int, p: int,
                        accu: int, x: int, low: int, high: int)
    requires w' == BETA * w && done' == done + w * low && src' == src + w * x
    requires done + w * accu == src * p && low + BETA * high == accu + x * p
    ensures done' + w' * high == src' * p
  {
    assert w * (low + BETA * high) == w * low + w' * high by { assert w * (BETA * high) == w' * high; }
    assert w * (accu + x * p) == w * accu + w * (x * p);
    assert src' * p == src * p + (w * x) * p;
    assert w * (x * p) == (w * x) * p;
  }

  /** Store src shifted left by s bits at dest[off..]; the bits shifted out are returned. */
  method ShiftLeft(src: seq<Limb>, s: nat, dest: array<Limb>, off: nat) returns (accu: TwoLimb)
    requires s < 32 && off + |src| <= dest.Length
    modifies dest
    ensures accu < Pow(2, s)
    ensures Val(dest[off..off + |src|]) + B(|src|) * accu == Val(src) * Pow(2, s)
    ensures forall k :: 0 <= k < off || off + |src| <= k < dest.Length ==> dest[k] == old(dest[k])
  {
    hide Val, B, Pow;
    EmptyVal();
    var p := Pow(2, s);
    ShiftIsSmallFactor(s);
    accu := 0;
    assert dest[off..off + 0] == [] && src[..0] == [];
    for i := 0 to |src|
      invariant accu < p
      invariant Val(dest[off..off + i]) + B(i) * accu == Val(src[..i]) * p
      invariant forall k :: 0 <= k < off || off + |src| <= k < dest.Length ==> dest[k] == old(dest[k])
    {
      ghost var done := dest[off..off + i];
      var low, high := ScaleLimb(accu, src[i], p);
      ScaleStep(done, src[..i], p, accu, src[i], low, high);
      dest[off + i], accu := low, high;
      assert dest[off..off + i] == done;
      ArraySliceNext(dest, off, off + i);
      assert src[..i + 1] == src[..i] + [src[i]];
    }
    assert src[..|src|] == src;
  }

  /** Multiply dest[..len] by a small factor, in place, and append what is carried out. */
  method ScaleInPlace(dest: array<Limb>, len: nat, p: int) returns (newLen: nat)
    requires SmallFactor(p) && len <= dest.Length
    requires Val(dest[..len]) * p < B(dest.Length)
    requires Normalised(dest[..len])
    modifies dest
    ensures len <= newLen <= len + 1 && newLen <= dest.Length
    ensures Val(dest[..newLen]) == old(Val(dest[..len])) * p
    ensures Normalised(dest[..newLen])
  {
    hide Val, B;
    EmptyVal();
    ghost var src := dest[..len];
    var accu: TwoLimb := 0;
    assert dest[..0] == [] && src[..0] == [];
    for i := 0 to len
      invariant accu < p
      invariant Val(dest[..i]) + B(i) * accu == Val(src[..i]) * p
      invariant forall k :: i <= k < len ==> dest[k] == src[k]
    {
      ghost var done := dest[..i];
      var low, high := ScaleLimb(accu, dest[i], p);
      ScaleStep(done, src[..i], p, accu, src[i], low, high);
      dest[i], accu := low, high;
      assert dest[..i] == done;
      assert dest[..i + 1] == done + [low];
      assert src[..i + 1] == src[..i] + [src[i]];
    }
    assert src[..len] == src;
    ghost var low := dest[..len];
    newLen := len;
    ScaledFits(low, src, p, accu, dest.Length);
    if accu > 0 {
      dest[len] := accu;
      newLen := len + 1;
      assert dest[..newLen] == low + [dest[len]];
      ValSnoc(low, dest[len]);
    } else {
      assert B(len) * 0 == 0;
      StaysLong(low, src, p);
    }
  }

  lemma ScaledFits(low: seq<Limb>, src: seq<Limb>, p: int, accu: nat, room: nat)
    requires |low| == |src| && Val(low) + B(|low|) * accu == Val(src) * p < B(room)
    ensures accu > 0 ==> |low| < room
  {
    hide Val;
    if accu > 0 && |low| >= room {
      PowMono(BETA, room, |low|);
      MulMono(B(|low|), 1, accu);
    }
  }

  /** A product is not shorter than a normalised factor. */
  lemma StaysLong(now: seq<Limb>, was: seq<Limb>, p: int)
    requires |now| == |was| && Normalised(was) && p >= 1 && Val(now) == Val(was) * p
    ensures Normalised(now)
  {
    hide Val, B;
    if |now| > 0 && now[|now| - 1] == 0 {
      ValNormalisedLower(was);
      ValDropZero(now);
      ValBound(now[..|now| - 1]);
      MulMono(Val(was), 1, p);
    }
  }
}
