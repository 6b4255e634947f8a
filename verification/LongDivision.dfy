/** The division loop of divide for divisors of two or more limbs, in the room that
    the remainder and the quotient share: q[j] is stored where r[j + n] was. */
module LongDivision {
  import opened Powers
  import opened Limbs
  import opened QuotientDigit

  /** The value of the top three limbs of s, and of the top two. */
  lemma TopLimbs(s: seq<Limb>)
    requires |s| >= 2
    ensures Val(s[|s| - 2..]) == s[|s| - 1] * BETA + s[|s| - 2]
    ensures |s| >= 3 ==>
      Val(s[|s| - 3..]) == (s[|s| - 1] * BETA + s[|s| - 2]) * BETA + s[|s| - 3]
  {
    hide Val;
    var k := |s|;
    assert s[k..] == [];
    EmptyVal();
    ValSuffixNext(s, k - 1);
    ValSuffixNext(s, k - 2);
    if k >= 3 { ValSuffixNext(s, k - 3); }
  }

  /** GuessBound for limbs: the guessed digit q is the true one or one more. */
  lemma GuessedDigit(s: seq<Limb>, b: seq<Limb>, q: Limb, u: int, v: int)
    requires |b| >= 2 && b[|b| - 1] >= HALF && |s| == |b| + 1
    requires Val(s) < BETA * Val(b)
    requires u == Val(s[|s| - 3..]) && v == Val(b[|b| - 2..])
    requires q * v <= u && (q == BETA - 1 || u < (q + 1) * v)
    ensures (q - 1) * Val(b) <= Val(s) < (q + 1) * Val(b)
  {
    hide Val, B;
    var k := |b| - 2;
    TopLimbs(b);
    ValSplit(s, k);
    ValSplit(b, k);
    ValBound(s[..k]);
    ValBound(b[..k]);
    GuessBound(u, v, B(k), Val(s[..k]), Val(b[..k]), q, Val(s), Val(b));
  }

  /** No borrow is left over: then the digit was right. R is the number divided,
      low its n low limbs and top the limb at weight p; d is what the subtraction left. */
  lemma DigitWasRight(R: int, low: int, p: int, top: int, q: int, v: int, d: int, cr: int)
    requires R == low + p * top && d == low - q * v + p * cr && 0 <= d < p && v < p
    requires R < (q + 1) * v && cr <= top
    ensures R == q * v + d && d < v
  {
    assert (q + 1) * v == q * v + v;
    assert p * top == p * cr + p * (top - cr);
    if cr < top { MulMono(p, 1, top - cr); }
  }

  /** A borrow is left over: then the digit was one too large, and adding b back mends it. */
  lemma DigitWasHigh(R: int, low: int, p: int, top: int, q: int, q': int, v: int, d: int, cr: int, e: int, carry: int)
    requires R == low + p * top && d == low - q * v + p * cr && 0 <= d < p && 0 < v < p
    requires q' == q - 1 && q' * v <= R && cr > top
    requires e + p * carry == d + v && 0 <= e < p
    ensures R == q' * v + e && e < v
  {
    assert q' * v == q * v - v;
    var k := cr - top - carry;
    assert p * cr - p * top - p * carry == p * k;
    assert p * cr == p * top + p * (cr - top);
    MulMono(p, 1, cr - top);
    if k >= 1 { MulMono(p, 1, k); }
    if k <= -1 { MulMono(p, k, -1); }
  }

  /** One round of the division loop. */
  method DivideDigit(r: array<Limb>, j: nat, b: seq<Limb>)
    requires |b| >= 2 && b[|b| - 1] >= HALF && j + |b| < r.Length
    requires Val(r[j..j + |b| + 1]) < BETA * Val(b)
    modifies r
    ensures OnlyAt(r[..], old(r[..]), j, |b| + 1)
    ensures old(Val(r[j..j + |b| + 1])) == r[j + |b|] * Val(b) + Val(r[j..j + |b|])
    ensures Val(r[j..j + |b|]) < Val(b)
  {
    hide Val, B;
    var n := |b|;
    ghost var s := r[j..j + n + 1];
    assert s[n] == r[j + n] && s[n - 1] == r[j + n - 1] && s[n - 2] == r[j + n - 2];
    var qStar := GuessDigit(r[j + n], r[j + n - 1], r[j + n - 2], b[n - 1], b[n - 2]);
    ghost var u, v := (r[j + n] * BETA + r[j + n - 1]) * BETA + r[j + n - 2], b[n - 1] * BETA + b[n - 2];
    TopLimbs(s);
    TopLimbs(b);
    GuessedDigit(s, b, qStar, u, v);
    var q := SubtractDigit(r, j, qStar, b);
    ghost var rest := r[j..j + n];
    r[j + n] := q;
    assert r[j..j + n] == rest;
  }

  /** The subtraction, skipped for a zero digit, and the step back. */
  method SubtractDigit(r: array<Limb>, j: nat, qStar: Limb, b: seq<Limb>) returns (q: Limb)
    requires |b| >= 2 && b[|b| - 1] >= HALF && j + |b| < r.Length
    requires (qStar - 1) * Val(b) <= Val(r[j..j + |b| + 1]) < (qStar + 1) * Val(b)
    modifies r
    ensures OnlyAt(r[..], old(r[..]), j, |b|)
    ensures old(Val(r[j..j + |b| + 1])) == q * Val(b) + Val(r[j..j + |b|])
    ensures Val(r[j..j + |b|]) < Val(b)
  {
    hide Val, B;
    var n := |b|;
    ghost var p, v, R, low, top := B(n), Val(b), Val(r[j..j + n + 1]), Val(r[j..j + n]), r[j + n];
    ArraySliceNext(r, j, j + n);
    ValSnoc(r[j..j + n], r[j + n]);
    ValBound(b);
    ValBound(r[j..j + n]);
    ValNormalisedLower(b);
    BPos(n - 1);
    q := qStar;
    if q > 0 {
      var cr := SubtractMultiple(r, j, q, b);
      assert r[..][j + n] == top;
      ghost var d := Val(r[j..j + n]);
      ValBound(r[j..j + n]);
      if cr > r[j + n] {
        q := q - 1;
        ghost var carry := AddBack(r, j, b);
        ValBound(r[j..j + n]);
        DigitWasHigh(R, low, p, top, qStar, q, v, d, cr, Val(r[j..j + n]), carry);
      } else {
        DigitWasRight(R, low, p, top, q, v, d, cr);
      }
    } else {
      DigitWasRight(R, low, p, top, q, v, low, 0);
    }
  }

  /** What the division loop keeps. Digits c and up of the quotient are at room[n + c..],
      the rest of the dividend is room[..n + c], and its part from limb c up is below b. */
  predicate Divided(room: seq<Limb>, c: nat, n: nat, b: nat, a: nat) {
    && n + c <= |room|
    && a == (Val(room[n + c..]) * b) * B(c) + Val(room[..n + c])
    && Val(room[c..n + c]) < b
  }

  lemma DivisionArithmetic(a: int, p: int, p': int, q: int, q': int, b: int, low: int, u: int, d: int, rem: int,
                           rest: int, rest': int)
    requires p' == BETA * p && a == (q * b) * p' + rest && rest == low + p * u
    requires u == d * b + rem && q' == d + BETA * q && rest' == low + p * rem
    ensures a == (q' * b) * p + rest'
  {
    assert q' * b == d * b + BETA * (q * b);
    assert (q' * b) * p == (d * b) * p + (BETA * (q * b)) * p;
    assert (BETA * (q * b)) * p == (q * b) * p';
    assert p * u == p * (d * b) + p * rem;
  }

  /** One round keeps the invariant. */
  lemma DivisionStep(was: seq<Limb>, now: seq<Limb>, j: nat, n: nat, b: nat, a: nat)
    requires Divided(was, j + 1, n, b, a)
    requires OnlyAt(now, was, j, n + 1)
    requires Val(was[j..j + n + 1]) == now[j + n] * b + Val(now[j..j + n])
    requires Val(now[j..j + n]) < b
    ensures Divided(now, j, n, b, a)
  {
    hide Val, B;
    assert now[..j] == was[..j] && now[j + n + 1..] == was[j + n + 1..];
    ValSplitAt(was, j, j + n + 1);
    ValSplitAt(now, j, j + n);
    ValSuffixNext(now, j + n);
    BNext(j);
    DivisionArithmetic(a, B(j), B(j + 1), Val(was[j + n + 1..]), Val(now[j + n..]), b, Val(was[..j]),
                       Val(was[j..j + n + 1]), now[j + n], Val(now[j..j + n]),
                       Val(was[..j + n + 1]), Val(now[..j + n]));
  }

  /** One round, at digit j. */
  method DivisionRound(room: array<Limb>, top: nat, j: nat, b: seq<Limb>, ghost a: nat)
    requires |b| >= 2 && b[|b| - 1] >= HALF && j + |b| < top <= room.Length
    requires Divided(room[..top], j + 1, |b|, Val(b), a)
    modifies room
    ensures Divided(room[..top], j, |b|, Val(b), a)
  {
    hide Val, B;
    ghost var n := |b|;
    ghost var was := room[..top];
    SliceFirst(was, j, j + n + 1);
    ArrayPrefixSlice(room, top, j, j + n + 1);
    ghost var all := room[..];
    DivideDigit(room, j, b);
    OnlyAtPrefix(room[..], all, j, n + 1, top);
    ghost var now := room[..top];
    assert room[..][..top] == now && all[..top] == was;
    ArrayPrefixSlice(room, top, j, j + n);
    DivisionStep(was, now, j, n, Val(b), a);
  }

  /** The division loop, traversed m - n + 1 times with j counting down; top is m + 1.
      At the end room holds the remainder in its n low limbs and the quotient above. */
  method DivisionLoop(room: array<Limb>, top: nat, b: seq<Limb>)
    requires |b| >= 2 && b[|b| - 1] >= HALF && |b| < top <= room.Length
    requires Val(room[top - |b|..top]) < Val(b)
    modifies room
    ensures old(Val(room[..top])) == Val(room[|b|..top]) * Val(b) + Val(room[..|b|])
    ensures Val(room[..|b|]) < Val(b)
  {
    hide Val, B;
    var n := |b|;
    ghost var a := Val(room[..top]);
    assert room[..top][top - n..] == room[top - n..top];
    DivisionStart(room[..top], n, Val(b));
    var j := top - n - 1;
    while true
      invariant 0 <= j < top - n
      invariant Divided(room[..top], j + 1, n, Val(b), a)
      decreases j
    {
      DivisionRound(room, top, j, b, a);
      if j == 0 {
        break;
      }
      j := j - 1;
    }
    DivisionEnd(room[..top], n, Val(b), a);
    assert room[..top][n..] == room[n..top] && room[..top][..n] == room[..n];
  }

  lemma OnlyAtPrefix(now: seq<Limb>, was: seq<Limb>, j: nat, n: nat, top: nat)
    requires OnlyAt(now, was, j, n) && j + n <= top <= |now|
    ensures OnlyAt(now[..top], was[..top], j, n)
  {
  }

  lemma DivisionStart(room: seq<Limb>, n: nat, b: nat)
    requires n < |room| && Val(room[|room| - n..]) < b
    ensures Divided(room, |room| - n, n, b, Val(room))
  {
    assert room[|room|..] == [] && room[..|room|] == room;
    EmptyVal();
    assert room[|room| - n..|room|] == room[|room| - n..];
  }

  lemma DivisionEnd(room: seq<Limb>, n: nat, b: nat, a: nat)
    requires Divided(room, 0, n, b, a)
    ensures a == Val(room[n..]) * b + Val(room[..n]) && Val(room[..n]) < b
  {
    assert B(0) == 1;
    assert room[0..n] == room[..n];
  }
}
