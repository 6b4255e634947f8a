/** Schoolbook multiplication (multiply in vasnprintf.c). */
module Multiply {
  import opened Powers
  import opened Limbs

  lemma LimbProduct(x: int, y: int)
    requires 0 <= x <= 0xFFFF_FFFF && 0 <= y <= 0xFFFF_FFFF
    ensures 0 <= x * y <= 0xFFFF_FFFE_0000_0001
  {
    MulMono(x, y, 0xFFFF_FFFF);
  }

  /** One step of a row: limb e is appended and hi carried on. */
  lemma RowStep(done: seq<Limb>, was: seq<Limb>, src: seq<Limb>, digit1: Limb,
                carry: nat, d: Limb, digit2: Limb, e: Limb, hi: nat)
    requires |done| == |was| == |src|
    requires Val(done) + B(|done|) * carry == Val(was) + digit1 * Val(src)
    requires e + BETA * hi == carry + digit1 * digit2 + d
    ensures Val(done + [e]) + B(|done| + 1) * hi == Val(was + [d]) + digit1 * Val(src + [digit2])
  {
    hide Val, B;
    ValSnoc(done, e);
    ValSnoc(was, d);
    ValSnoc(src, digit2);
    BNext(|done|);
    RowArithmetic(B(|done|), B(|done| + 1), Val(done), Val(done + [e]), Val(was), Val(was + [d]),
                  Val(src), Val(src + [digit2]), digit1, carry, d, digit2, e, hi);
  }

  /** The arithmetic of RowStep; primes mark the values one limb further on. */
  lemma RowArithmetic(p: int, p': int, done: int, done': int, was: int, was': int, src: int, src': int,
                      digit1: int, carry: int, d: int, digit2: int, e: int, hi: int)
    requires p' == BETA * p && done' == done + p * e && was' == was + p * d && src' == src + p * digit2
    requires done + p * carry == was + digit1 * src
    requires e + BETA * hi == carry + digit1 * digit2 + d
    ensures done' + p' * hi == was' + digit1 * src'
  {
    assert p * (e + BETA * hi) == p * e + p' * hi by { assert p * (BETA * hi) == p' * hi; }
    assert p * (carry + digit1 * digit2 + d) == p * carry + p * (digit1 * digit2) + p * d;
    assert p * (digit1 * digit2) == digit1 * (p * digit2);
    assert digit1 * src' == digit1 * src + digit1 * (p * digit2);
  }

  /** The inner loop: dp[i..] += digit1 * p2, and the last carry is stored. */
  method MultiplyRow(dp: array<Limb>, i: nat, digit1: Limb, p2: seq<Limb>)
    requires i + |p2| < dp.Length
    modifies dp
    ensures dp[..i] == old(dp[..i])
    ensures dp[i + |p2| + 1..] == old(dp[i + |p2| + 1..])
    ensures Val(dp[i..i + |p2| + 1]) == old(Val(dp[i..i + |p2|])) + digit1 * Val(p2)
  {
    hide Val, B;
    EmptyVal();
    var carry: TwoLimb := 0;
    ghost var was := dp[..];
    assert dp[i..i + 0] == [] && was[i..i + 0] == [] && p2[..0] == [];
    assert digit1 * Val([]) == 0;
    for j := 0 to |p2|
      invariant carry < BETA
      invariant forall k :: 0 <= k < i || i + j <= k < dp.Length ==> dp[k] == was[k]
      invariant Val(dp[i..i + j]) + B(j) * carry == Val(was[i..i + j]) + digit1 * Val(p2[..j])
    {
      ghost var before, c := dp[i..i + j], carry;
      var digit2 := p2[j];
      LimbProduct(digit1, digit2);
      carry := carry + digit1 * digit2;
      carry := carry + dp[i + j];
      RowStep(before, was[i..i + j], p2[..j], digit1, c, was[i + j], digit2,
              carry % BETA, carry / BETA);
      dp[i + j] := carry % BETA;
      carry := carry / BETA;
      assert dp[i..i + j] == before;
      ArraySliceNext(dp, i, i + j);
      SliceNext(was, i, i + j);
      assert p2[..j + 1] == p2[..j] + [digit2];
    }
    ghost var low := dp[i..i + |p2|];
    assert p2[..|p2|] == p2;
    dp[i + |p2|] := carry;
    assert dp[i..i + |p2| + 1] == low + [dp[i + |p2|]];
    ValSnoc(low, dp[i + |p2|]);
  }

  /** How many limbs remain when zero limbs are dropped from the top. */
  method NormalisedLength(dp: array<Limb>, len: nat) returns (dlen: nat)
    requires len <= dp.Length
    ensures dlen <= len && Normalised(dp[..dlen])
    ensures Val(dp[..dlen]) == Val(dp[..len])
  {
    dlen := len;
    while dlen > 0 && dp[dlen - 1] == 0
      invariant dlen <= len
      invariant Val(dp[..dlen]) == Val(dp[..len])
    {
      ValDropZero(dp[..dlen]);
      assert dp[..dlen][..dlen - 1] == dp[..dlen - 1];
      dlen := dlen - 1;
    }
  }

  /** What one row adds to the product of the rows before it. */
  lemma OuterStep(dp: seq<Limb>, was: seq<Limb>, p1: seq<Limb>, p2: seq<Limb>, i: nat)
    requires i < |p1| && i + |p2| < |dp| == |was|
    requires dp[..i] == was[..i]
    requires Val(was[..i + |p2|]) == Val(p1[..i]) * Val(p2)
    requires Val(dp[i..i + |p2| + 1]) == Val(was[i..i + |p2|]) + p1[i] * Val(p2)
    ensures Val(dp[..i + |p2| + 1]) == Val(p1[..i + 1]) * Val(p2)
  {
    hide Val, B;
    var n, p, v := |p2|, B(i), Val(p2);
    assert dp[..i] == was[..i];
    ValSplitAt(dp, i, i + n + 1);
    ValSplitAt(was, i, i + n);
    ValPrefixNext(p1, i);
    OuterArithmetic(p, Val(dp[..i]), Val(was[i..i + n]), Val(dp[i..i + n + 1]), p1[i], v, Val(p1[..i]),
                    Val(p1[..i + 1]), Val(was[..i + n]), Val(dp[..i + n + 1]));
  }

  lemma OuterArithmetic(p: int, low: int, w: int, w': int, d: int, v: int, q: int, q': int, all: int, all': int)
    requires all == low + p * w && all' == low + p * w' && all == q * v
    requires w' == w + d * v && q' == q + p * d
    ensures all' == q' * v
  {
    assert p * w' == p * w + p * (d * v);
    assert p * (d * v) == (p * d) * v;
    assert q' * v == q * v + (p * d) * v;
  }

  /** The row loop as one step: rows 0 to i of the product are now added up. */
  method AddRow(dp: array<Limb>, p1: seq<Limb>, p2: seq<Limb>, i: nat)
    requires i < |p1| && i + |p2| < dp.Length
    requires Val(dp[..i + |p2|]) == Val(p1[..i]) * Val(p2)
    modifies dp
    ensures Val(dp[..i + 1 + |p2|]) == Val(p1[..i + 1]) * Val(p2)
  {
    ghost var was := dp[..];
    assert was[..i + |p2|] == dp[..i + |p2|];
    assert was[i..i + |p2|] == dp[i..i + |p2|];
    MultiplyRow(dp, i, p1[i], p2);
    assert dp[..][..i] == was[..i] && dp[..][i..i + |p2| + 1] == dp[i..i + |p2| + 1];
    OuterStep(dp[..], was, p1, p2, i);
    assert dp[..][..i + |p2| + 1] == dp[..i + 1 + |p2|];
  }

  /** The product of two bignums, normalised whatever the operands are. */
  method Multiply(src1: seq<Limb>, src2: seq<Limb>) returns (dest: seq<Limb>)
    ensures Val(dest) == Val(src1) * Val(src2)
    ensures Normalised(dest)
  {
    var p1, p2 := src1, src2;
    if |src1| > |src2| {
      p1, p2 := src2, src1;
    }
    assert Val(p1) * Val(p2) == Val(src1) * Val(src2);
    if |p1| == 0 {
      return [];
    }
    var dp := new Limb[|p1| + |p2|];
    var k := |p2|;
    while k > 0
      invariant 0 <= k <= |p2|
      invariant forall h :: k <= h < |p2| ==> dp[h] == 0
    {
      k := k - 1;
      dp[k] := 0;
    }
    ValZeroes(dp[..|p2|]);
    for i := 0 to |p1|
      invariant Val(dp[..i + |p2|]) == Val(p1[..i]) * Val(p2)
    {
      AddRow(dp, p1, p2, i);
    }
    assert p1[..|p1|] == p1;
    var dlen := NormalisedLength(dp, |p1| + |p2|);
    dest := dp[..dlen];
  }
}
