/** The characters that %f, %e and %g produce for a positive number (the digit code of
    vasnprintf.c), and what these characters denote. */
module Layout {
  import opened Powers
  import opened Limbs
  import opened Decimal
  import opened Scale10
  import opened Exponent

  function Char(d: Digit): char { ('0' as int + d) as char }

  /** Digits as text, the last one first. */
  function Show(ds: seq<Digit>): (s: string)
    ensures |s| == |ds|
  {
    if ds == [] then "" else Show(ds[1..]) + [Char(ds[0])]
  }

  function Zeroes(n: nat): seq<Digit> { seq(n, _ => 0) }

  // Reading a decimal number.

  predicate IsDigitChar(c: char) { '0' <= c <= '9' }

  /** The number that the digits of a text make up; the point is passed over. */
  function Number(s: string): nat {
    if s == "" then 0
    else
      var c, rest := s[|s| - 1], Number(s[..|s| - 1]);
      if IsDigitChar(c) then 10 * rest + (c as int - '0' as int) else rest
  }

  /** How many characters follow the point. */
  function Places(s: string): nat {
    if s == "" || s[|s| - 1] == '.' then 0
    else if '.' in s then Places(s[..|s| - 1]) + 1
    else 0
  }

  /** The first place that holds c, or the length. */
  function Cut(s: string, c: char): (i: nat)
    ensures i <= |s| && (i < |s| ==> s[i] == c) && forall j :: 0 <= j < i ==> s[j] != c
  {
    if s == "" || s[0] == c then 0 else 1 + Cut(s[1..], c)
  }

  /** What comes before, and behind, the first c. */
  function Before(s: string, c: char): string { s[..Cut(s, c)] }
  function Behind(s: string, c: char): string { if c in s then s[Cut(s, c) + 1..] else "" }

  /** A decimal number with the given number of digits before the point, of which the first is
      not 0 unless it is the only one. The point is there just if digits follow it, or with alt. */
  predicate IsDecimal(s: string, digits: nat, alt: bool) {
    && Cut(s, '.') == digits > 0
    && (forall i :: 0 <= i < |s| && i != digits ==> IsDigitChar(s[i]))
    && (digits > 1 ==> s[0] != '0')
    && ('.' in s <==> alt || Places(s) > 0)
  }

  /** A signed exponent: two digits, or more where they are needed. */
  predicate IsExponent(s: string, exponent: int) {
    && |s| >= 3 && s[0] == (if exponent < 0 then '-' else '+')
    && (forall i :: 1 <= i < |s| ==> IsDigitChar(s[i]))
    && Number(s[1..]) == (if exponent < 0 then -exponent else exponent)
    && (|s| == 3 <==> -100 < exponent < 100) && (|s| > 3 ==> s[1] != '0')
  }

  lemma CutFirst(a: string, c: char, b: string)
    requires c !in a
    ensures Before(a + [c] + b, c) == a && Behind(a + [c] + b, c) == b
  {
    var s := a + [c] + b;
    assert s[|a|] == c;
    assert c in s;
    var i := Cut(s, c);
    assert forall j :: 0 <= j < |a| ==> s[j] == a[j];
    assert i == |a|;
  }

  lemma CutNothing(a: string, c: char)
    requires c !in a
    ensures Cut(a, c) == |a| && Before(a, c) == a
  {}

  lemma NumberOfDigit(s: string, d: Digit)
    ensures Number(s + [Char(d)]) == 10 * Number(s) + d
  {
    assert (s + [Char(d)])[..|s|] == s;
  }

  lemma OneMoreDigit(n: int, p: int, v: int, d: int, p': int, v': int)
    requires p' == 10 * p && v' == d + 10 * v
    ensures 10 * (n * p + v) + d == n * p' + v'
  {
    assert n * (10 * p) == 10 * (n * p);
  }

  lemma {:induction false} NumberOfShown(s: string, ds: seq<Digit>)
    ensures Number(s + Show(ds)) == Number(s) * Pow(10, |ds|) + DVal(ds)
    decreases |ds|
  {
    hide Number;
    if ds == [] {
      assert s + Show(ds) == s;
    } else {
      assert s + Show(ds) == s + Show(ds[1..]) + [Char(ds[0])];
      NumberOfShown(s, ds[1..]);
      NumberOfDigit(s + Show(ds[1..]), ds[0]);
      OneMoreDigit(Number(s), Pow(10, |ds| - 1), DVal(ds[1..]), ds[0], Pow(10, |ds|), DVal(ds));
    }
  }

  lemma NumberOfPoint(s: string)
    ensures Number(s + ".") == Number(s)
  {
    assert (s + ".")[..|s|] == s;
  }

  lemma {:induction false} NoPointShown(ds: seq<Digit>)
    ensures '.' !in Show(ds)
  {
    if ds != [] { NoPointShown(ds[1..]); }
  }

  lemma {:induction false} ShownDigits(ds: seq<Digit>)
    ensures forall i :: 0 <= i < |ds| ==> IsDigitChar(Show(ds)[i])
    ensures ds != [] ==> (Show(ds)[0] == '0' <==> ds[|ds| - 1] == 0)
  {
    if ds != [] { ShownDigits(ds[1..]); }
  }

  lemma {:induction false} PlacesShown(s: string, ds: seq<Digit>)
    ensures Places(s + "." + Show(ds)) == |ds|
    decreases |ds|
  {
    var t := s + "." + Show(ds);
    assert t[|s|] == '.';
    if ds == [] {
      assert t == s + ".";
    } else {
      assert t[..|t| - 1] == s + "." + Show(ds[1..]) && t[|t| - 1] == Char(ds[0]);
      PlacesShown(s, ds[1..]);
    }
  }

  lemma PlacesWithoutPoint(ds: seq<Digit>)
    ensures Places(Show(ds)) == 0
  {
    NoPointShown(ds);
  }

  lemma {:induction false} ZeroesOnTop(ds: seq<Digit>, n: nat)
    ensures DVal(ds + Zeroes(n)) == DVal(ds)
  {
    DValConcat(ds, Zeroes(n));
    DValZeroes(Zeroes(n));
  }

  lemma ShowConcat(low: seq<Digit>, high: seq<Digit>)
    ensures Show(low + high) == Show(high) + Show(low)
    decreases |low|
  {
    if low == [] {
      assert low + high == high;
    } else {
      ShowConcat(low[1..], high);
      assert (low + high)[1..] == low[1..] + high;
    }
  }

  /** A number with an integral part and a fraction; the point is left out if there is no
      fraction, unless alt. */
  function Fixed(integral: seq<Digit>, fraction: seq<Digit>, alt: bool): string {
    Show(integral) + (if alt || fraction != [] then "." + Show(fraction) else "")
  }

  /** What such a text denotes. */
  lemma FixedDenotes(integral: seq<Digit>, fraction: seq<Digit>, alt: bool)
    ensures var t := Fixed(integral, fraction, alt);
      Number(t) == DVal(fraction + integral) && Places(t) == |fraction|
  {
    hide Show, Number, Places, DVal, Pow;
    var s := Show(integral);
    assert "" + s == s;
    NumberOfShown("", integral);
    assert Number("") == 0 by { NumberOfNothing(); }
    DValConcat(fraction, integral);
    if alt || fraction != [] {
      NumberOfPoint(s);
      NumberOfShown(s + ".", fraction);
      PlacesShown(s, fraction);
      assert s + ("." + Show(fraction)) == s + "." + Show(fraction);
    } else {
      PlacesWithoutPoint(integral);
      DValNothing();
      assert Pow(10, 0) == 1 by { PowerOfNothing(); }
      assert s + "" == s;
    }
  }

  lemma FixedIsDecimal(integral: seq<Digit>, fraction: seq<Digit>, alt: bool)
    requires Canonical(integral)
    ensures var t := Fixed(integral, fraction, alt);
      IsDecimal(t, |integral|, alt) && (t[0] == '0' <==> integral[|integral| - 1] == 0)
  {
    hide Show, Number, Places, DVal, Pow;
    FixedDenotes(integral, fraction, alt);
    ShownDigits(integral);
    ShownDigits(fraction);
    NoPointShown(integral);
    var t := Fixed(integral, fraction, alt);
    if alt || fraction != [] {
      assert t == Show(integral) + ['.'] + Show(fraction);
      CutFirst(Show(integral), '.', Show(fraction));
      assert t[|integral|] == '.';
    } else {
      assert t == Show(integral);
      CutNothing(t, '.');
    }
  }

  lemma NumberOfNothing()
    ensures Number("") == 0
  {}

  lemma DValNothing()
    ensures DVal([]) == 0
  {}

  lemma PowerOfNothing()
    ensures Pow(10, 0) == 1
  {}

  /** Append the digits from high - 1 down to low. */
  method PutDigits(p: string, digits: seq<Digit>, high: nat, low: nat) returns (r: string)
    requires low <= high <= |digits|
    ensures r == p + Show(digits[low..high])
  {
    r := p;
    var ndigits := high;
    assert digits[high..high] == [];
    while ndigits > low
      invariant low <= ndigits <= high
      invariant r == p + Show(digits[ndigits..high])
    {
      ndigits := ndigits - 1;
      ghost var s := digits[ndigits..high];
      assert s[1..] == digits[ndigits + 1..high];
      r := r + [Char(digits[ndigits])];
    }
  }

  method PutZeroes(p: string, count: nat) returns (r: string)
    ensures r == p + Show(Zeroes(count))
  {
    r := p;
    for i := 0 to count
      invariant r == p + Show(Zeroes(i))
    {
      assert Zeroes(i + 1)[1..] == Zeroes(i);
      r := r + ['0'];
    }
  }

  /** The digits for %f, with at least one before the point. */
  function Padded(digits: seq<Digit>, precision: nat): (r: seq<Digit>)
    ensures |r| > precision
  {
    if |digits| > precision then digits else digits + Zeroes(precision + 1 - |digits|)
  }

  /** The digits before the point, and how many digits are left. */
  method LayoutIntegral(digits: seq<Digit>, precision: nat) returns (p: string, ndigits: nat)
    ensures p == Show(Padded(digits, precision)[precision..]) && ndigits == if |digits| > precision then precision else |digits|
  {
    if |digits| > precision {
      p := PutDigits("", digits, |digits|, precision);
      assert digits[precision..|digits|] == digits[precision..];
      return "" + p, precision;
    }
    assert Padded(digits, precision)[precision..] == [0];
    assert Show([0]) == "0" by { assert [0 as Digit][1..] == []; }
    return "0", |digits|;
  }

  /** The rest of the digits, with zeroes in front of them if they are too few. */
  method LayoutFraction(p: string, digits: seq<Digit>, precision: nat, ndigits: nat) returns (r: string)
    requires ndigits == if |digits| > precision then precision else |digits|
    ensures r == p + Show(Padded(digits, precision)[..precision])
  {
    hide Show;
    r := PutZeroes(p, precision - ndigits);
    r := PutDigits(r, digits, ndigits, 0);
    ghost var high, low := Zeroes(precision - ndigits), digits[0..ndigits];
    assert Padded(digits, precision)[..precision] == low + high;
    ShowConcat(low, high);
    assert p + Show(high) + Show(low) == p + (Show(high) + Show(low));
  }

  method LayoutF(digits: seq<Digit>, precision: nat, alt: bool) returns (p: string)
    ensures var all := Padded(digits, precision);
      p == Fixed(all[precision..], all[..precision], alt)
  {
    hide Show, Padded;
    ghost var all := Padded(digits, precision);
    var integral, ndigits := LayoutIntegral(digits, precision);
    p := integral;
    if alt || precision > 0 {
      p := LayoutFraction(p + ".", digits, precision, ndigits);
      assert p == integral + ("." + Show(all[..precision]));
    } else {
      assert p + "" == p;
    }
  }

  /** %f of m * 2^e: the text denotes m * 2^e rounded to precision places, half to even. */
  method PrintF(e: int, m: seq<Limb>, precision: nat, alt: bool) returns (text: string)
    ensures IsScaled(Val(m), e, precision, Number(text)) && Places(text) == precision
    ensures IsDecimal(text, Cut(text, '.'), alt) && ('.' in text <==> alt || precision > 0)
  {
    hide IsScaled, Number, Places, DVal, Pow, Canonical, Val, Fixed;
    var digits := RoundDecimal(e, m, precision);
    text := LayoutF(digits, precision, alt);
    ghost var all := Padded(digits, precision);
    FixedDenotes(all[precision..], all[..precision], alt);
    assert all[..precision] + all[precision..] == all;
    CanonicalTop(digits, precision);
    FixedIsDecimal(all[precision..], all[..precision], alt);
    if |digits| <= precision { ZeroesOnTop(digits, precision + 1 - |digits|); }
  }

  lemma CanonicalTop(digits: seq<Digit>, precision: nat)
    requires Canonical(digits)
    ensures Canonical(Padded(digits, precision)[precision..])
  {
    if |digits| <= precision { assert Padded(digits, precision)[precision..] == [0]; }
  }

  // Exponents.

  function DigitsOf(n: nat): (ds: seq<Digit>)
    ensures Canonical(ds) && DVal(ds) == n
  {
    if n < 10 then [n] else [n % 10] + DigitsOf(n / 10)
  }

  /** What sprintf makes of an exponent with %+.2d. */
  function ExponentText(exponent: int): string {
    var ds := DigitsOf(if exponent < 0 then -exponent else exponent);
    (if exponent < 0 then "-" else "+") + Show(if |ds| < 2 then ds + [0] else ds)
  }

  /** The digits of a number are as many as it needs. */
  lemma {:induction false} FewDigits(n: nat)
    ensures var ds := DigitsOf(n);
      (|ds| == 1 <==> n < 10) && (|ds| <= 2 <==> n < 100) && (n > 0 ==> ds[|ds| - 1] != 0)
  {
    hide DVal;
    if n >= 10 { FewDigits(n / 10); }
  }

  /** The exponent is written with its sign and two digits, or as many as it needs. */
  lemma ExponentTextDenotes(exponent: int)
    ensures IsExponent(ExponentText(exponent), exponent)
  {
    hide DVal, Pow, Number, Show, DigitsOf;
    var n := if exponent < 0 then -exponent else exponent;
    var ds := DigitsOf(n);
    var all := if |ds| < 2 then ds + [0] else ds;
    FewDigits(n);
    OneZeroMore(ds);
    NumberOfShown("", all);
    NumberOfNothing();
    ShownDigits(all);
    assert "" + Show(all) == Show(all);
    assert ExponentText(exponent)[1..] == Show(all);
  }

  function Min(a: nat, b: nat): nat { if a <= b then a else b }

  lemma SlicesOf(digits: seq<Digit>, ndigits: nat, low: nat)
    requires low <= ndigits <= |digits|
    ensures digits[ndigits..|digits|] == digits[ndigits..] && "" + Show(digits[ndigits..]) == Show(digits[ndigits..])
    ensures digits[low..ndigits] == [] <==> low == ndigits
  {}

  /** The digits before the point down to ndigits, and behind it those down to nzeroes. */
  method LayoutSplit(digits: seq<Digit>, ndigits: nat, nzeroes: nat, alt: bool) returns (p: string)
    requires ndigits <= |digits|
    ensures p == Fixed(digits[ndigits..], digits[Min(nzeroes, ndigits)..ndigits], alt)
  {
    hide Show;
    ghost var low := Min(nzeroes, ndigits);
    SlicesOf(digits, ndigits, low);
    p := PutDigits("", digits, |digits|, ndigits);
    ghost var integral, fraction := Show(digits[ndigits..]), Show(digits[low..ndigits]);
    assert p == integral;
    if alt || ndigits > nzeroes {
      p := PutDigits(p + ".", digits, ndigits, Min(nzeroes, ndigits));
      assert p == integral + ("." + fraction);
    } else {
      assert p == integral + "";
    }
  }

  /** A text of %e: the exponent behind the letter c is the given one. */
  ghost predicate WithExponent(text: string, c: char, exponent: int) {
    c in text && IsExponent(Behind(text, c), exponent)
  }

  lemma Composed(mantissa: string, digits: nat, alt: bool, c: char, exponent: int)
    requires IsDecimal(mantissa, digits, alt) && (c == 'e' || c == 'E')
    ensures c !in mantissa && Before(mantissa, c) == mantissa
    ensures var text := mantissa + [c] + ExponentText(exponent);
      WithExponent(text, c, exponent) && Before(text, c) == mantissa
  {
    hide ExponentText, IsExponent;
    forall i | 0 <= i < |mantissa|
      ensures mantissa[i] != c
    {
      assert i != digits ==> IsDigitChar(mantissa[i]);
    }
    CutNothing(mantissa, c);
    CutFirst(mantissa, c, ExponentText(exponent));
    ExponentTextDenotes(exponent);
    var text := mantissa + [c] + ExponentText(exponent);
    assert text[|mantissa|] == c;
  }

  /** The text denotes v * 2^e rounded to one digit before the point and precision digits
      behind it, with the least exponent for which it has so many, and the digit before the
      point is not 0. Zero has the exponent 0. */
  ghost predicate IsE(text: string, v: nat, e: int, precision: nat, alt: bool, c: char) {
    var mantissa := Before(text, c);
    && Places(mantissa) == precision && IsDecimal(mantissa, 1, alt)
    && exists exponent ::
         && WithExponent(text, c, exponent)
         && (if v == 0 then Number(mantissa) == 0 && exponent == 0
             else
               && LeastExponent(v, e, precision, exponent)
               && IsScaled(v, e, precision - exponent, Number(mantissa))
               && mantissa[0] != '0')
  }

  /** The letter before an exponent. */
  function Letter(upper: bool): char { if upper then 'E' else 'e' }

  /** %e or %E of m * 2^e. */
  method PrintE(e: int, m: seq<Limb>, precision: nat, alt: bool, upper: bool, guess: int) returns (text: string)
    requires Val(m) > 0 ==> GoodGuess(Val(m), e, guess)
    ensures IsE(text, Val(m), e, precision, alt, if upper then 'E' else 'e')
  {
    hide IsScaled, Number, Places, DVal, Pow, Val, Fixed, GoodGuess, LeastExponent, IsDecimal, ExponentText, IsExponent;
    var digits, exp := Zeroes(precision + 1), 0;
    if Val(m) != 0 {
      digits, exp := ExponentDigits(e, m, precision, guess);
      TopDigit(e, m, precision, exp, digits);
    }
    var body := LayoutSplit(digits, precision, 0, alt);
    assert digits[Min(0, precision)..precision] == digits[..precision];
    text := body + [Letter(upper)] + ExponentText(exp);
    FixedDenotes(digits[precision..], digits[..precision], alt);
    assert digits[..precision] + digits[precision..] == digits;
    if Val(m) == 0 { DValZeroes(digits); }
    assert Canonical(digits[precision..]);
    FixedIsDecimal(digits[precision..], digits[..precision], alt);
    Composed(body, 1, alt, Letter(upper), exp);
    assert digits[precision..][0] == digits[precision];
  }

  /** The first digit is not 0. */
  lemma TopDigit(e: int, m: seq<Limb>, precision: nat, exponent: int, digits: seq<Digit>)
    requires LeastExponent(Val(m), e, precision, exponent) && IsScaled(Val(m), e, precision - exponent, DVal(digits))
    requires Canonical(digits) && |digits| == precision + 1
    ensures digits[precision] != 0
  {
    hide IsScaled, Rounded, Pow, Val, DVal;
    RoundedIff(Val(m), e, precision - exponent, DVal(digits));
    if precision == 0 {
      TenPositive(0);
      DValOne(digits[0]);
      assert digits == [digits[0]];
    }
  }

  // %g

  /** How many zeroes the digits end with. */
  function TrailingZeroes(digits: seq<Digit>): (n: nat)
    ensures n <= |digits| && (forall i :: 0 <= i < n ==> digits[i] == 0) && (n < |digits| ==> digits[n] != 0)
  {
    if digits == [] || digits[0] != 0 then 0 else 1 + TrailingZeroes(digits[1..])
  }

  method CountZeroes(digits: seq<Digit>) returns (nzeroes: nat)
    ensures nzeroes == TrailingZeroes(digits)
  {
    nzeroes := 0;
    while nzeroes < |digits| && digits[nzeroes] == 0
      invariant nzeroes <= |digits| && TrailingZeroes(digits) == nzeroes + TrailingZeroes(digits[nzeroes..])
    {
      assert digits[nzeroes..][1..] == digits[nzeroes + 1..];
      nzeroes := nzeroes + 1;
    }
  }

  /** A number below 1: zeroes first, and then the digits down to nzeroes. */
  method LayoutSmall(digits: seq<Digit>, count: nat, nzeroes: nat) returns (p: string)
    requires nzeroes < |digits|
    ensures p == Fixed([0], digits[nzeroes..] + Zeroes(count), true)
  {
    hide Show;
    p := PutZeroes("0.", count);
    p := PutDigits(p, digits, |digits|, nzeroes);
    assert digits[nzeroes..|digits|] == digits[nzeroes..];
    var low, high := digits[nzeroes..], Zeroes(count);
    ShowConcat(low, high);
    ShowNought();
    assert "0." + Show(high) + Show(low) == "0" + ("." + (Show(high) + Show(low)));
  }

  lemma ShowNought()
    ensures Show([0]) == "0"
  {
    assert [0 as Digit][1..] == [];
  }

  /** The digits with dropped zeroes at their end left out. */
  lemma Dropped(digits: seq<Digit>, z: nat)
    requires z <= |digits| && forall i :: 0 <= i < z ==> digits[i] == 0
    ensures DVal(digits) == Pow(10, z) * DVal(digits[z..])
  {
    hide DVal, Pow;
    DValConcat(digits[..z], digits[z..]);
    DValZeroes(digits[..z]);
    assert digits == digits[..z] + digits[z..];
  }

  lemma SplitDenotes(digits: seq<Digit>, ndigits: nat, z: nat, alt: bool)
    requires z <= ndigits < |digits| && digits[|digits| - 1] != 0
    ensures var t := Fixed(digits[ndigits..], digits[z..ndigits], alt);
      Number(t) == DVal(digits[z..]) && Places(t) == ndigits - z && IsDecimal(t, |digits| - ndigits, alt)
  {
    hide Number, Places, DVal, Fixed, IsDecimal;
    FixedIsDecimal(digits[ndigits..], digits[z..ndigits], alt);
    FixedDenotes(digits[ndigits..], digits[z..ndigits], alt);
    assert digits[z..ndigits] + digits[ndigits..] == digits[z..];
  }

  lemma SmallDenotes(digits: seq<Digit>, count: nat, z: nat, alt: bool)
    requires z < |digits|
    ensures var t := Fixed([0], digits[z..] + Zeroes(count), true);
      Number(t) == DVal(digits[z..]) && Places(t) == |digits| - z + count && IsDecimal(t, 1, alt)
  {
    hide Number, Places, DVal, IsDecimal;
    assert Fixed([0], digits[z..] + Zeroes(count), true) == Fixed([0], digits[z..] + Zeroes(count), alt);
    FixedIsDecimal([0], digits[z..] + Zeroes(count), alt);
    var fraction := digits[z..] + Zeroes(count);
    FixedDenotes([0], fraction, true);
    ZeroesOnTop(digits[z..], count);
    OneZeroMore(fraction);
  }

  /** The layout of %g for precision digits with the given exponent. Without an exponent in the
      text, which is from -4 to precision - 1 then, the point is moved instead. Some digits have
      been dropped: with alt none, and otherwise all the zeroes at the end of the fraction. */
  ghost predicate GText(text: string, exponent: int, dropped: nat, precision: nat, alt: bool, c: char) {
    var plain := -4 <= exponent < precision;
    var mantissa := Before(text, c);
    && (if plain then c !in text else WithExponent(text, c, exponent))
    && Places(mantissa) + dropped == precision - 1 - (if plain then exponent else 0)
    && IsDecimal(mantissa, if plain && exponent >= 0 then exponent + 1 else 1, alt)
    && (if alt then dropped == 0 else Places(mantissa) == 0 || Number(mantissa) % 10 != 0)
  }

  /** The number with the dropped zeroes appended again. */
  function Restored(mantissa: string, dropped: nat): nat { Pow(10, dropped) * Number(mantissa) }

  /** The layout of digits by %g. */
  ghost predicate LaidOut(text: string, digits: seq<Digit>, exponent: int, alt: bool, c: char) {
    exists dropped ::
      GText(text, exponent, dropped, |digits|, alt, c) && DVal(digits) == Restored(Before(text, c), dropped)
  }

  lemma LastDigit(digits: seq<Digit>, z: nat)
    requires z < |digits| && digits[z] != 0
    ensures DVal(digits[z..]) % 10 != 0
  {}

  lemma GComposed(mantissa: string, exponent: int, dropped: nat, precision: nat, alt: bool, c: char)
    requires c == 'e' || c == 'E'
    requires var plain := -4 <= exponent < precision;
      && Places(mantissa) + dropped == precision - 1 - (if plain then exponent else 0)
      && IsDecimal(mantissa, if plain && exponent >= 0 then exponent + 1 else 1, alt)
    requires if alt then dropped == 0 else Places(mantissa) == 0 || Number(mantissa) % 10 != 0
    ensures var text := if -4 <= exponent < precision then mantissa else mantissa + [c] + ExponentText(exponent);
      GText(text, exponent, dropped, precision, alt, c) && Before(text, c) == mantissa
  {
    hide Number, Places, ExponentText, IsDecimal, IsExponent, Before, Behind, Cut, WithExponent;
    Composed(mantissa, if -4 <= exponent < precision && exponent >= 0 then exponent + 1 else 1, alt, c, exponent);
  }

  method LayoutG(digits: seq<Digit>, exponent: int, alt: bool, upper: bool) returns (text: string)
    requires |digits| > 0 && digits[|digits| - 1] != 0
    ensures LaidOut(text, digits, exponent, alt, if upper then 'E' else 'e')
  {
    hide DVal, Pow, Number, Places, Fixed, Show, ExponentText, IsDecimal, GText;
    var precision, c := |digits|, Letter(upper);
    var nzeroes := 0;
    if !alt {
      nzeroes := CountZeroes(digits);
      LastDigit(digits, nzeroes);
    }
    ghost var mantissa, dropped;
    if exponent >= -4 && exponent < precision {
      if exponent >= 0 {
        var ndigits := precision - (exponent + 1);
        text := LayoutSplit(digits, ndigits, nzeroes, alt);
        dropped := Min(nzeroes, ndigits);
        SplitDenotes(digits, ndigits, dropped, alt);
      } else {
        text := LayoutSmall(digits, -exponent - 1, nzeroes);
        dropped := nzeroes;
        SmallDenotes(digits, -exponent - 1, nzeroes, alt);
      }
      mantissa := text;
    } else {
      var ndigits := precision - 1;
      text := LayoutSplit(digits, ndigits, nzeroes, alt);
      mantissa := text;
      text := text + [c] + ExponentText(exponent);
      dropped := Min(nzeroes, ndigits);
      SplitDenotes(digits, ndigits, dropped, alt);
    }
    GComposed(mantissa, exponent, dropped, precision, alt, c);
    Dropped(digits, dropped);
  }

  lemma OneZeroMore(ds: seq<Digit>)
    ensures DVal(ds + [0]) == DVal(ds)
  {
    hide DVal;
    ZeroesOnTop(ds, 1);
    assert Zeroes(1) == [0];
  }

  /** The text denotes v * 2^e rounded to precision significant digits, some of which may have
      been dropped, with the least exponent for which it has so many. */
  ghost predicate IsG(text: string, v: nat, e: int, precision: nat, alt: bool, c: char)
    requires precision > 0
  {
    exists exponent, dropped ::
      && GText(text, exponent, dropped, precision, alt, c)
      && (if v == 0 then Number(Before(text, c)) == 0 && exponent == 0
          else
            && LeastExponent(v, e, precision - 1, exponent)
            && IsScaled(v, e, precision - 1 - exponent, Restored(Before(text, c), dropped)))
  }

  /** %g or %G of m * 2^e with the given precision, where 0 counts as 1: the digits are those of
      %e with precision - 1 places. */
  method PrintG(e: int, m: seq<Limb>, givenPrecision: nat, alt: bool, upper: bool, guess: int) returns (text: string)
    requires Val(m) > 0 ==> GoodGuess(Val(m), e, guess)
    ensures IsG(text, Val(m), e, if givenPrecision == 0 then 1 else givenPrecision, alt, if upper then 'E' else 'e')
  {
    hide DVal, Pow, Number, Places, LeastExponent, IsScaled, Val, GoodGuess, Fixed, IsDecimal, ExponentText, IsExponent;
    var precision := if givenPrecision == 0 then 1 else givenPrecision;
    if Val(m) == 0 {
      var nzeroes := if alt then 0 else precision - 1;
      var digits := Zeroes(precision);
      text := LayoutSplit(digits, precision - 1, nzeroes, alt);
      FixedDenotes(digits[precision - 1..], digits[nzeroes..precision - 1], alt);
      DValZeroes(digits[nzeroes..precision - 1] + digits[precision - 1..]);
      assert Canonical(digits[precision - 1..]);
      FixedIsDecimal(digits[precision - 1..], digits[nzeroes..precision - 1], alt);
      Composed(text, 1, alt, Letter(upper), 0);
      assert GText(text, 0, nzeroes, precision, alt, Letter(upper));
      return;
    }
    var digits, exp := ExponentDigits(e, m, precision - 1, guess);
    TopDigit(e, m, precision - 1, exp, digits);
    text := LayoutG(digits, exp, alt, upper);
  }
}
