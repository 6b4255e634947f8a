/** Bignums as little-endian sequences of 32-bit limbs (mpn_t of vasnprintf.c).

    A limb is an integer in its 32-bit range and a double limb one in its
    64-bit range; both are subset types, so that every assignment to a variable
    of these types proves that the C computation does not wrap around there.
    Where the C code truncates on purpose, (mp_limb_t) x is written x % BETA,
    x >> 32 is x / BETA, and ~x is BETA - 1 - x. */
module Limbs {
  import opened Powers

  const BETA: nat := 0x1_0000_0000
  const HALF: nat := 0x8000_0000

  type Limb = x: int | 0 <= x < 0x1_0000_0000
  type TwoLimb = x: int | 0 <= x < 0x1_0000_0000_0000_0000

  /** The number that a sequence of limbs stands for. */
  function Val(s: seq<Limb>): nat {
    if |s| == 0 then 0 else s[0] + BETA * Val(s[1..])
  }

  lemma EmptyVal()
    ensures Val([]) == 0
  {}

  /** BETA to the power k, the weight of limb k. */
  function B(k: nat): nat { Pow(BETA, k) }

  predicate Normalised(s: seq<Limb>) { |s| > 0 ==> s[|s| - 1] != 0 }

  lemma BPos(k: nat)
    ensures B(k) >= 1
  {
    PowPos(BETA, k);
  }

  lemma BNext(k: nat)
    ensures B(k + 1) == BETA * B(k)
  {}

  lemma BAdd(m: nat, n: nat)
    ensures B(m + n) == B(m) * B(n)
  {
    PowAdd(BETA, m, n);
  }

  lemma {:induction false} ValConcat(s: seq<Limb>, t: seq<Limb>)
    ensures Val(s + t) == Val(s) + B(|s|) * Val(t)
  {
    if |s| == 0 {
      assert s + t == t;
    } else {
      ValConcat(s[1..], t);
      assert (s + t)[1..] == s[1..] + t;
      var p, v := B(|s| - 1), Val(t);
      assert BETA * (p * v) == (BETA * p) * v;
    }
  }

  lemma ValSplit(s: seq<Limb>, k: nat)
    requires k <= |s|
    ensures Val(s) == Val(s[..k]) + B(k) * Val(s[k..])
  {
    assert s == s[..k] + s[k..];
    ValConcat(s[..k], s[k..]);
  }

  lemma ValSplitAt(s: seq<Limb>, i: nat, k: nat)
    requires i <= k <= |s|
    ensures Val(s[..k]) == Val(s[..i]) + B(i) * Val(s[i..k])
  {
    ValSplit(s[..k], i);
    assert s[..k][..i] == s[..i] && s[..k][i..] == s[i..k];
  }

  /** The value of a slice by its lowest limb. */
  lemma SliceFirst(s: seq<Limb>, i: nat, k: nat)
    requires i < k <= |s|
    ensures Val(s[i..k]) == s[i] + BETA * Val(s[i + 1..k])
  {
    assert s[i..k][1..] == s[i + 1..k];
  }

  lemma ValOne(x: Limb)
    ensures Val([x]) == x
  {}

  lemma ValSnoc(s: seq<Limb>, x: Limb)
    ensures Val(s + [x]) == Val(s) + B(|s|) * x
  {
    ValConcat(s, [x]);
    ValOne(x);
  }

  /** The prefix one limb longer. */
  lemma ValPrefixNext(s: seq<Limb>, k: nat)
    requires k < |s|
    ensures Val(s[..k + 1]) == Val(s[..k]) + B(k) * s[k]
  {
    assert s[..k + 1] == s[..k] + [s[k]];
    ValSnoc(s[..k], s[k]);
  }

  /** The suffix one limb longer. */
  lemma ValSuffixNext(s: seq<Limb>, k: nat)
    requires k < |s|
    ensures Val(s[k..]) == s[k] + BETA * Val(s[k + 1..])
  {
    assert s[k..][1..] == s[k + 1..];
  }

  lemma {:induction false} ValBound(s: seq<Limb>)
    ensures Val(s) < B(|s|)
  {
    if |s| > 0 { ValBound(s[1..]); }
  }

  lemma {:induction false} ValZeroes(s: seq<Limb>)
    requires forall i :: 0 <= i < |s| ==> s[i] == 0
    ensures Val(s) == 0
  {
    if |s| > 0 { ValZeroes(s[1..]); }
  }

  /** A slice one limb longer, of an array and of a sequence. */
  lemma ArraySliceNext(a: array<Limb>, i: nat, k: nat)
    requires i <= k < a.Length
    ensures a[i..k + 1] == a[i..k] + [a[k]]
  {}

  lemma SliceNext(s: seq<Limb>, i: nat, k: nat)
    requires i <= k < |s|
    ensures s[i..k + 1] == s[i..k] + [s[k]]
  {}

  lemma ArrayPrefixSlice(a: array<Limb>, top: nat, i: nat, k: nat)
    requires i <= k <= top <= a.Length
    ensures a[..top][i..k] == a[i..k]
  {}

  lemma SuffixFirst(s: seq<Limb>, i: nat)
    requires i < |s|
    ensures s[i..] == [s[i]] + s[i + 1..]
  {}

  lemma MulNext(p: int, x: int)
    ensures (x + 1) * p == x * p + p && p * x == x * p
  {}

  /** A nonzero top limb puts the number between two powers of BETA. */
  lemma ValTop(s: seq<Limb>)
    requires |s| > 0
    ensures s[|s| - 1] * B(|s| - 1) <= Val(s) < (s[|s| - 1] + 1) * B(|s| - 1)
  {
    var k := |s| - 1;
    ValPrefixNext(s, k);
    assert s[..k + 1] == s;
    ValBound(s[..k]);
    MulNext(B(k), s[k]);
  }

  lemma ValNormalisedLower(s: seq<Limb>)
    requires |s| > 0 && Normalised(s)
    ensures B(|s| - 1) <= Val(s)
  {
    hide Val, B;
    ValTop(s);
    BPos(|s| - 1);
    MulMono(B(|s| - 1), 1, s[|s| - 1]);
  }

  /** Dropping a zero top limb changes nothing. */
  lemma ValDropZero(s: seq<Limb>)
    requires |s| > 0 && s[|s| - 1] == 0
    ensures Val(s[..|s| - 1]) == Val(s)
  {
    ValPrefixNext(s, |s| - 1);
    assert s[..|s|] == s;
  }

  lemma ValUnfolds(s: seq<Limb>)
    ensures Val(s) == if |s| == 0 then 0 else s[0] + BETA * Val(s[1..])
  {}

  /** A number has only one normalised form. */
  lemma {:induction false} NormalisedUnique(s: seq<Limb>, t: seq<Limb>)
    requires Normalised(s) && Normalised(t) && Val(s) == Val(t)
    ensures s == t
  {
    hide Val, B;
    ValUnfolds(s);
    ValUnfolds(t);
    if |s| == 0 || |t| == 0 {
      if |s| > 0 { ValNormalisedLower(s); BPos(|s| - 1); }
      if |t| > 0 { ValNormalisedLower(t); BPos(|t| - 1); }
    } else {
      NormalisedUnique(s[1..], t[1..]);
      assert s == [s[0]] + s[1..] && t == [t[0]] + t[1..];
    }
  }

  lemma CompareArithmetic(p: int, low: int, x: int, y: int)
    requires 0 <= low < p && x < y
    ensures low + p * x < p * y
  {
    MulMono(p, x + 1, y);
    assert p * (x + 1) == p * x + p;
  }

  /** Where one number's highest differing limb is larger, the number is larger. */
  lemma ValCompare(s: seq<Limb>, t: seq<Limb>, i: nat)
    requires |s| == |t| && i < |s|
    requires s[i + 1..] == t[i + 1..] && s[i] < t[i]
    ensures Val(s) < Val(t)
  {
    hide Val, B;
    ValSplit(s, i);
    ValSplit(t, i);
    ValSuffixNext(s, i);
    ValSuffixNext(t, i);
    ValBound(s[..i]);
    CompareArithmetic(B(i), Val(s[..i]), Val(s[i..]), Val(t[i..]));
  }
}
