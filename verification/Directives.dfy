/** The grammar of a directive, in terms of its characters: what the parser makes of every part,
    and which formats it refuses (PRINTF_PARSE in printf-parse.c). */
module Directives {
  import opened Options
  import opened PrintfParse
  import opened FormatFacts
  import opened Reparse

  // The characters, and what they amount to.

  predicate Digits(s: string) { forall j :: 0 <= j < |s| ==> '0' <= s[j] <= '9' }

  predicate Flags(s: string) {
    forall j :: 0 <= j < |s| ==> s[j] in ['\'', '-', '+', ' ', '#', '0']
  }

  predicate Sizes(s: string) {
    forall j :: 0 <= j < |s| ==> s[j] in ['h', 'l', 'L', 'j', 'z', 'Z', 't']
  }

  predicate Integral(c: char) { c == 'd' || c == 'i' }
  predicate Unsigned(c: char) { c == 'o' || c == 'u' || c == 'x' || c == 'X' }
  predicate Floating(c: char) { c in ['f', 'F', 'e', 'E', 'g', 'G', 'a', 'A'] }
  predicate Known(c: char) { Integral(c) || Unsigned(c) || Floating(c) || c in ['c', 'C', 's', 'S', 'p', 'n', '%'] }

  /** A character that is no part of any directive. */
  predicate Foreign(c: char) {
    !Known(c) && !('0' <= c <= '9') && c !in ['\'', '-', '+', ' ', '#', 'h', 'l', 'L', 'j', 'z', 'Z', 't', '*', '.', '$']
  }

  function Value(s: string): nat
    requires Digits(s)
  {
    if s == "" then 0 else 10 * Value(s[..|s| - 1]) + (s[|s| - 1] as int - '0' as int)
  }

  function Count(s: string, c: char): nat {
    if s == "" then 0 else Count(s[..|s| - 1], c) + (if s[|s| - 1] == c then 1 else 0)
  }

  /** The letters that stand for a long: of j, z and t each is one, as l is. */
  function Longs(size: string): nat {
    Count(size, 'l') + Count(size, 'j') + Count(size, 'z') + Count(size, 'Z') + Count(size, 't')
  }

  /** An argument of size long long, or a long double. */
  predicate Biggest(size: string) { Count(size, 'L') > 0 || Longs(size) > 1 }

  lemma {:induction false} ValueIsDecimal(s: string)
    requires Digits(s)
    ensures Value(s) == Decimal(s)
  {
    if s != "" { ValueIsDecimal(s[..|s| - 1]); }
  }

  lemma {:induction false} SizeCounts(size: string)
    requires Sizes(size)
    ensures var s := SizeOf(size);
      && (s.h <==> Count(size, 'h') >= 1) && (s.hh <==> Count(size, 'h') >= 2)
      && (s.big <==> Count(size, 'L') >= 1) && s.longs == Longs(size)
  {
    if size != "" {
      var front, last := size[..|size| - 1], size[|size| - 1];
      SizeCounts(front);
      assert last in ['h', 'l', 'L', 'j', 'z', 'Z', 't'];
    }
  }

  /** Which of five types it is, by the size letters: the plain one, those for h and hh, and those
      for l and ll. */
  predicate BySize(size: string, t: ArgType, hh: ArgType, h: ArgType, plain: ArgType, l: ArgType, ll: ArgType) {
    && (Biggest(size) ==> t == ll)
    && (!Biggest(size) && Longs(size) == 1 ==> t == l)
    && (!Biggest(size) && Longs(size) == 0 && Count(size, 'h') >= 2 ==> t == hh)
    && (!Biggest(size) && Longs(size) == 0 && Count(size, 'h') == 1 ==> t == h)
    && (!Biggest(size) && Longs(size) == 0 && Count(size, 'h') == 0 ==> t == plain)
  }

  /** The type of the argument, by the conversion and the size letters. */
  predicate TypeIs(c: char, size: string, t: ArgType) {
    && (Integral(c) ==> BySize(size, t, SChar, Short, Int, Long, LongLong))
    && (Unsigned(c) ==> BySize(size, t, UChar, UShort, UInt, ULong, ULongLong))
    && (Floating(c) ==> t == if Biggest(size) then LongDouble else Double)
    && (c == 'c' ==> t == if Longs(size) >= 1 then WideChar else Char)
    && (c == 's' ==> t == if Longs(size) >= 1 then WideStr else Str)
    && (c == 'C' ==> t == WideChar) && (c == 'S' ==> t == WideStr) && (c == 'p' ==> t == Pointer)
    && (c == 'n' ==> BySize(size, t, CountSChar, CountShort, CountInt, CountLong, CountLongLong))
    && (c == '%' ==> t == NoType)
  }

  lemma TypeByLetters(c: char, size: string, t: ArgType)
    requires Sizes(size) && TypeOf(c, SizeOf(size)) == Some(t)
    ensures Known(c) && TypeIs(c, size, t) && (t == NoType <==> c == '%')
  {
    hide SizeOf, Count, Longs;
    SizeCounts(size);
    TypeBySize(c, SizeOf(size), size, t);
  }

  lemma TypeBySize(c: char, s: Size, size: string, t: ArgType)
    requires TypeOf(c, s) == Some(t)
    requires (s.h <==> Count(size, 'h') >= 1) && (s.hh <==> Count(size, 'h') >= 2)
    requires (s.big <==> Count(size, 'L') >= 1) && s.longs == Longs(size)
    ensures Known(c) && TypeIs(c, size, t) && (t == NoType <==> c == '%')
  {
    hide Count, Longs, Biggest;
    BiggestSize(s, size);
    if Integral(c) || Unsigned(c) {
      IntegerBySize(c, s, size, t);
    } else {
      OtherBySize(c, s, size, t);
    }
  }

  lemma BiggestSize(s: Size, size: string)
    requires (s.big <==> Count(size, 'L') >= 1) && s.longs == Longs(size)
    ensures Biggest(size) <==> s.longs >= 2 || s.big
  {
    hide Count, Longs;
  }

  lemma IntegerBySize(c: char, s: Size, size: string, t: ArgType)
    requires TypeOf(c, s) == Some(t) && (Integral(c) || Unsigned(c))
    requires (s.h <==> Count(size, 'h') >= 1) && (s.hh <==> Count(size, 'h') >= 2) && s.longs == Longs(size)
    requires Biggest(size) <==> s.longs >= 2 || s.big
    ensures Known(c) && TypeIs(c, size, t) && (t == NoType <==> c == '%')
  {
    hide Count, Longs, Biggest;
  }

  lemma OtherBySize(c: char, s: Size, size: string, t: ArgType)
    requires TypeOf(c, s) == Some(t) && !Integral(c) && !Unsigned(c)
    requires (s.h <==> Count(size, 'h') >= 1) && (s.hh <==> Count(size, 'h') >= 2) && s.longs == Longs(size)
    requires Biggest(size) <==> s.longs >= 2 || s.big
    ensures Known(c) && TypeIs(c, size, t) && (t == NoType <==> c == '%')
  {
    hide Count, Longs, Biggest;
  }

  lemma KnownHasType(c: char, s: Size)
    ensures TypeOf(c, s).Some? <==> Known(c)
    ensures Stored(c) == if c == 'C' then 'c' else if c == 'S' then 's' else c
  {}

  /** The letters that the sub-format for snprintf has for an argument. */
  lemma LettersByType(t: ArgType)
    ensures SizeLetters(t) == "ll" <==> t == LongLong || t == ULongLong
    ensures SizeLetters(t) == "l" <==> t == Long || t == ULong || t == WideChar || t == WideStr
    ensures SizeLetters(t) == "L" <==> t == LongDouble
    ensures SizeLetters(t) in ["", "l", "ll", "L"]
  {}

  // Positions, widths and precisions.

  /** Digits and a dollar sign from i on: a position. */
  lemma PositionHere(f: string, i: nat, s: string)
    requires i + |s| < |f| && f[i..i + |s|] == s && s != "" && Digits(s) && f[i + |s|] == '$'
    ensures PositionAt(f, i) ==
      if Value(s) == 0 || Value(s) >= 0xFFFF_FFFF_FFFF_FFFF then BadPosition else At(Value(s) - 1, i + |s| + 1)
  {
    assert forall j :: i <= j < i + |s| ==> f[j] == s[j - i];
    DigitsEndAt(f, i, i + |s|);
    ValueIsDecimal(s);
  }

  lemma NoPositionHere(f: string, i: nat, e: nat)
    requires i <= e <= |f| && forall j :: i <= j < e ==> '0' <= f[j] <= '9'
    requires e < |f| ==> !('0' <= f[e] <= '9') && (f[e] != '$' || e == i)
    ensures PositionAt(f, i) == NoPosition
  {
    DigitsEndAt(f, i, e);
  }

  /** A width, or a precision behind its dot: digits, if any, or an argument. */
  datatype Amount = Number(digits: string) | Next | Numbered(position: string)

  function AmountText(a: Amount): string {
    match a
    case Number(s) => s
    case Next => "*"
    case Numbered(s) => "*" + s + "$"
  }

  predicate GoodPosition(s: string) { s != "" && Digits(s) && 0 < Value(s) < 0xFFFF_FFFF_FFFF_FFFF }

  predicate GoodAmount(a: Amount) {
    match a
    case Number(s) => Digits(s)
    case Next => true
    case Numbered(s) => GoodPosition(s)
  }

  /** The argument that gives it, and the number of arguments that have been consumed in order. */
  function AmountArg(a: Amount, posn: nat): Option<nat>
    requires GoodAmount(a)
  {
    match a case Number(_) => None case Next => Some(posn) case Numbered(s) => Some(Value(s) - 1)
  }

  function Consumed(a: Amount, posn: nat): nat { if a.Next? then posn + 1 else posn }

  /** The part of it that counts for the longest width or precision. */
  function AmountLength(a: Amount): nat { if a.Number? then |a.digits| else 1 }

  lemma NumberHere(f: string, i: nat, s: string, posn: nat)
    requires Digits(s) && i + |s| < |f| && f[i..i + |s|] == s
    requires var x := f[i + |s|]; !('0' <= x <= '9') && x != '*'
    ensures FieldAt(f, i, posn) == Some(Field(i + |s|, i + |s|, None, posn))
  {
    hide PositionAt;
    assert forall j :: i <= j < i + |s| ==> f[j] == s[j - i];
    DigitsEndAt(f, i, i + |s|);
  }

  lemma StarHere(f: string, i: nat, p: Position, posn: nat)
    requires i + 1 < |f| && f[i] == '*' && PositionAt(f, i + 1) == p && !p.BadPosition?
    requires posn < 0xFFFF_FFFF_FFFF_FFFF
    ensures FieldAt(f, i, posn) ==
      if p.At? then Some(Field(i + 1, p.next, Some(p.index), posn)) else Some(Field(i + 1, i + 1, Some(posn), posn + 1))
  {
    hide PositionAt;
  }

  lemma AmountHere(f: string, i: nat, a: Amount, posn: nat)
    requires GoodAmount(a) && i + |AmountText(a)| < |f| && f[i..i + |AmountText(a)|] == AmountText(a)
    requires var x := f[i + |AmountText(a)|]; !('0' <= x <= '9') && x != '*' && x != '$'
    requires posn < 0xFFFF_FFFF_FFFF_FFFF
    ensures FieldAt(f, i, posn) ==
      Some(Field(i + AmountLength(a), i + |AmountText(a)|, AmountArg(a, posn), Consumed(a, posn)))
  {
    hide FieldAt, PositionAt, Value;
    match a
    case Number(s) => NumberHere(f, i, s, posn);
    case Next =>
      assert f[i] == f[i..i + 1][0];
      NoPositionHere(f, i + 1, i + 1);
      StarHere(f, i, NoPosition, posn);
    case Numbered(s) =>
      assert "*" + s + "$" == "*" + (s + "$");
      BehindFirst(f, i, '*', s + "$");
      PrefixOf(f, i + 1, s, "$");
      PositionHere(f, i + 1, s);
      StarHere(f, i, At(Value(s) - 1, i + 1 + |s| + 1), posn);
  }

  function PrecisionText(p: Option<Amount>): string { if p.Some? then "." + AmountText(p.value) else "" }

  predicate GoodPrecision(p: Option<Amount>) { p.Some? ==> GoodAmount(p.value) }

  function PrecisionArg(p: Option<Amount>, posn: nat): Option<nat>
    requires GoodPrecision(p)
  {
    if p.Some? then AmountArg(p.value, posn) else None
  }

  lemma PrecisionHere(f: string, i: nat, p: Option<Amount>, posn: nat)
    requires GoodPrecision(p) && i + |PrecisionText(p)| < |f| && f[i..i + |PrecisionText(p)|] == PrecisionText(p)
    requires var x := f[i + |PrecisionText(p)|]; !('0' <= x <= '9') && x != '*' && x != '$' && (p == None ==> x != '.')
    requires posn < 0xFFFF_FFFF_FFFF_FFFF
    ensures PrecisionAt(f, i, posn) ==
      Some(Field(if p.Some? then i + 1 + AmountLength(p.value) else i, i + |PrecisionText(p)|, PrecisionArg(p, posn),
                 if p.Some? then Consumed(p.value, posn) else posn))
  {
    hide FieldAt, AmountText, AmountLength, AmountArg, Consumed, GoodAmount;
    if p.Some? {
      var t, u := PrecisionText(p), AmountText(p.value);
      BehindFirst(f, i, '.', u);
      AmountHere(f, i + 1, p.value, posn);
    }
  }

  lemma BehindFirst(f: string, i: nat, c: char, u: string)
    requires i + 1 + |u| <= |f| && f[i..i + 1 + |u|] == [c] + u
    ensures f[i] == c && f[i + 1..i + 1 + |u|] == u
  {
    var t := f[i..i + 1 + |u|];
    assert t[0] == c && t[1..] == u;
  }

  // A directive.

  function PositionText(pos: Option<string>): string { if pos.Some? then pos.value + "$" else "" }

  /** The parts of a directive: the position of its argument, flags, width, precision, size
      letters and conversion. */
  datatype Parts = Parts(pos: Option<string>, flags: string, width: Amount, precision: Option<Amount>, size: string, c: char)

  function Text(d: Parts): string {
    "%" + PositionText(d.pos) + d.flags + AmountText(d.width) + PrecisionText(d.precision) + d.size + [d.c]
  }

  /** The parts are well formed; a width does not begin with 0, which would be a flag. */
  predicate Good(d: Parts) {
    && (d.pos.Some? ==> GoodPosition(d.pos.value)) && Flags(d.flags) && GoodAmount(d.width)
    && (d.width.Number? && d.width.digits != "" ==> d.width.digits[0] != '0')
    && GoodPrecision(d.precision) && Sizes(d.size)
  }

  /** The places of the parts of a directive that begins at start. */
  function FlagsPlace(d: Parts, start: nat): nat { start + 1 + |PositionText(d.pos)| }
  function WidthPlace(d: Parts, start: nat): nat { FlagsPlace(d, start) + |d.flags| }
  function PrecisionPlace(d: Parts, start: nat): nat { WidthPlace(d, start) + |AmountText(d.width)| }
  function SizePlace(d: Parts, start: nat): nat { PrecisionPlace(d, start) + |PrecisionText(d.precision)| }
  function ConversionPlace(d: Parts, start: nat): nat { SizePlace(d, start) + |d.size| }

  /** The directive stands in the format at start. */
  ghost predicate Stands(f: string, start: nat, d: Parts) {
    && ConversionPlace(d, start) < |f| && f[start] == '%'
    && f[start + 1..FlagsPlace(d, start)] == PositionText(d.pos)
    && f[FlagsPlace(d, start)..WidthPlace(d, start)] == d.flags
    && f[WidthPlace(d, start)..PrecisionPlace(d, start)] == AmountText(d.width)
    && f[PrecisionPlace(d, start)..SizePlace(d, start)] == PrecisionText(d.precision)
    && f[SizePlace(d, start)..ConversionPlace(d, start)] == d.size
    && f[ConversionPlace(d, start)] == d.c
  }

  lemma Slice(pre: string, part: string, post: string)
    ensures (pre + part + post)[|pre|..|pre| + |part|] == part
  {}

  lemma Assoc(a: string, b: string, c: string)
    ensures (a + b) + c == a + (b + c)
  {}

  lemma SixParts(f: string, a: string, b: string, c: string, d: string, e: string, x: char)
    requires f == "%" + a + b + c + d + e + [x]
    ensures var n1 := 1 + |a|; var n2 := n1 + |b|; var n3 := n2 + |c|; var n4 := n3 + |d|; var n5 := n4 + |e|;
      && |f| == n5 + 1 && f[0] == '%' && f[n5] == x
      && f[1..n1] == a && f[n1..n2] == b && f[n2..n3] == c && f[n3..n4] == d && f[n4..n5] == e
  {
    var p1 := "%" + a;
    var p2 := p1 + b;
    var p3 := p2 + c;
    var p4 := p3 + d;
    var t4 := e + [x];
    var t3 := d + t4;
    var t2 := c + t3;
    var t1 := b + t2;
    Assoc(p4, e, [x]);
    Assoc(p3, d, t4);
    Assoc(p2, c, t3);
    Assoc(p1, b, t2);
    Slice(p4, e, [x]);
    Slice(p3, d, t4);
    Slice(p2, c, t3);
    Slice(p1, b, t2);
    Slice("%", a, t1);
  }

  lemma TextStands(d: Parts)
    ensures Stands(Text(d), 0, d) && ConversionPlace(d, 0) + 1 == |Text(d)|
  {
    hide PositionText, AmountText, PrecisionText;
    SixParts(Text(d), PositionText(d.pos), d.flags, AmountText(d.width), PrecisionText(d.precision), d.size, d.c);
  }

  // What the parser makes of a directive.

  /** The conversion is known, or it is a character of no directive. */
  predicate Ends(c: char) { Known(c) || Foreign(c) }

  lemma EndsApart(c: char)
    requires Ends(c)
    ensures !IsDigit(c) && !IsFlag(c) && !IsSize(c) && c != '*' && c != '.' && c != '$' && !('0' <= c <= '9')
  {}

  /** The first character of a part, or that which follows an empty one. */
  lemma FirstOf(f: string, i: nat, part: string)
    requires i + |part| < |f| && f[i..i + |part|] == part
    ensures f[i] == if part != "" then part[0] else f[i + |part|]
  {
    if part != "" { assert f[i..i + |part|][0] == f[i]; }
  }

  /** Neither a digit nor a star, dollar sign or flag. */
  predicate Apart(x: char) { !('0' <= x <= '9') && x != '*' && x != '$' && !IsFlag(x) }

  lemma SizeApart(size: string)
    requires Sizes(size) && size != ""
    ensures Apart(size[0]) && size[0] != '.'
  {}

  /** The character behind a part is no part of it. */
  lemma NextApart(f: string, start: nat, d: Parts)
    requires Stands(f, start, d) && Good(d) && Ends(d.c)
    ensures !IsSize(f[ConversionPlace(d, start)])
    ensures Apart(f[SizePlace(d, start)]) && f[SizePlace(d, start)] != '.'
    ensures Apart(f[PrecisionPlace(d, start)]) && (d.precision == None ==> f[PrecisionPlace(d, start)] != '.')
    ensures !IsFlag(f[WidthPlace(d, start)])
  {
    hide Known, Foreign, Sizes, AmountText, Ends, GoodAmount, GoodPosition, PositionText;
    EndsApart(d.c);
    if d.size != "" { SizeApart(d.size); }
    FirstOf(f, SizePlace(d, start), d.size);
    FirstOf(f, PrecisionPlace(d, start), PrecisionText(d.precision));
    FirstOf(f, WidthPlace(d, start), AmountText(d.width));
    WidthApart(d.width);
  }

  lemma WidthApart(w: Amount)
    requires GoodAmount(w) && (w.Number? && w.digits != "" ==> w.digits[0] != '0')
    ensures AmountText(w) != "" ==> !IsFlag(AmountText(w)[0])
  {}

  /** The position of a directive's own argument. */
  function OwnPosition(d: Parts, start: nat): Position
    requires Good(d)
  {
    if d.pos.Some? then At(Value(d.pos.value) - 1, FlagsPlace(d, start)) else NoPosition
  }

  lemma OwnPositionHere(f: string, start: nat, d: Parts)
    requires Stands(f, start, d) && Good(d) && Ends(d.c)
    ensures PositionAt(f, start + 1) == OwnPosition(d, start)
    ensures PrintfParse.Behind(OwnPosition(d, start), start + 1) == FlagsPlace(d, start)
  {
    hide Ends, Sizes, GoodAmount, PrecisionText, GoodPrecision;
    if d.pos.Some? {
      var s := d.pos.value;
      PrefixOf(f, start + 1, s, "$");
      PositionHere(f, start + 1, s);
    } else {
      NextApart(f, start, d);
      NoDollarAhead(f, start, d);
    }
  }

  lemma PrefixOf(f: string, i: nat, a: string, b: string)
    requires i + |a| + |b| <= |f| && f[i..i + |a| + |b|] == a + b
    ensures f[i..i + |a|] == a && f[i + |a|..i + |a| + |b|] == b
    ensures b != "" ==> f[i + |a|] == b[0]
  {
    var t := f[i..i + |a| + |b|];
    assert t[..|a|] == a && t[|a|..] == b;
  }

  /** Without a position, a character that is no digit comes before any dollar sign. */
  lemma NoDollarAhead(f: string, start: nat, d: Parts)
    requires Stands(f, start, d) && Flags(d.flags) && GoodAmount(d.width) && d.pos == None
    requires Apart(f[PrecisionPlace(d, start)])
    ensures PositionAt(f, start + 1) == NoPosition
  {
    hide PrecisionText;
    var e := DigitsEnd(f, start + 1);
    var i, q := WidthPlace(d, start), if d.width.Number? then PrecisionPlace(d, start) else WidthPlace(d, start);
    forall j | start + 1 <= j < i
      ensures f[j] != '$'
    {
      assert f[j] == f[start + 1..i][j - start - 1];
    }
    forall j | i <= j < q
      ensures f[j] != '$'
    {
      assert f[j] == f[i..PrecisionPlace(d, start)][j - i];
    }
    if !d.width.Number? { assert f[i] == f[i..PrecisionPlace(d, start)][0]; }
    assert e <= q;
  }

  lemma EndingHere(f: string, i: nat, size: string, c: char, p: Position, posn: nat)
    requires i + |size| < |f| && f[i..i + |size|] == size && f[i + |size|] == c && Sizes(size) && !IsSize(c)
    requires !p.BadPosition? && posn < 0xFFFF_FFFF_FFFF_FFFF
    ensures EndingAt(f, i, p, posn).Some? <==> Known(c)
    ensures Known(c) ==>
      var e := EndingAt(f, i, p, posn).value;
      && e.end == i + |size| + 1 && TypeIs(c, size, e.argType)
      && e.conversion == (if c == 'C' then 'c' else if c == 'S' then 's' else c)
      && e.arg == (if c == '%' then None else if p.At? then Some(p.index) else Some(posn))
      && e.posn == (if c == '%' || p.At? then posn else posn + 1)
  {
    hide SizeOf, TypeOf, TypeIs, Count;
    assert forall j :: i <= j < i + |size| ==> f[j] == size[j - i];
    SizeEndAt(f, i, i + |size|);
    KnownHasType(c, SizeOf(size));
    if Known(c) {
      TypeByLetters(c, size, TypeOf(c, SizeOf(size)).value);
    }
  }

  /** Scan in terms of what its parts find. */
  lemma ScanFrom(f: string, start: nat, posn: nat, p: Position, i2: nat, w: Field, q: Field)
    requires start < |f| && PositionAt(f, start + 1) == p && !p.BadPosition?
    requires FlagsEnd(f, PrintfParse.Behind(p, start + 1)) == i2 && FieldAt(f, i2, posn) == Some(w)
    requires PrecisionAt(f, w.next, w.posn) == Some(q)
    ensures Scan(f, start, posn) ==
      match EndingAt(f, q.next, p, q.posn)
      case None => None
      case Some(e) => Some(Scanned(
        Directive(start, e.end, Chars(f[PrintfParse.Behind(p, start + 1)..i2]), i2, w.textEnd, w.arg,
                  w.next, q.textEnd, q.arg, e.conversion, e.arg, e.argType), e.posn))
  {
    hide PositionAt, FieldAt, PrecisionAt, EndingAt;
  }

  /** A directive is scanned into its parts. Its arguments are taken in the order width,
      precision, value, each from its position or else the next one. A character that ends no
      directive is an error. */
  lemma DirectiveScanned(f: string, start: nat, posn: nat, d: Parts)
    requires Stands(f, start, d) && Good(d) && Ends(d.c) && posn + 3 < 0xFFFF_FFFF_FFFF_FFFF
    ensures Scan(f, start, posn).Some? <==> Known(d.c)
    ensures Known(d.c) ==>
      var s, dir := Scan(f, start, posn).value, Scan(f, start, posn).value.dir;
      var n1 := Consumed(d.width, posn);
      var n2 := if d.precision.Some? then Consumed(d.precision.value, n1) else n1;
      && dir.start == start && dir.end == ConversionPlace(d, start) + 1 && (forall x :: x in dir.flags <==> x in d.flags)
      && dir.widthStart == WidthPlace(d, start) && dir.widthEnd == dir.widthStart + AmountLength(d.width)
      && dir.widthArg == AmountArg(d.width, posn)
      && dir.precStart == PrecisionPlace(d, start)
      && dir.precEnd == dir.precStart + (if d.precision.Some? then 1 + AmountLength(d.precision.value) else 0)
      && dir.precArg == PrecisionArg(d.precision, n1)
      && dir.conversion == (if d.c == 'C' then 'c' else if d.c == 'S' then 's' else d.c)
      && dir.argIndex == (if d.c == '%' then None else if d.pos.Some? then Some(Value(d.pos.value) - 1) else Some(n2))
      && TypeIs(d.c, d.size, dir.argType)
      && s.posn == (if d.c == '%' || d.pos.Some? then n2 else n2 + 1)
  {
    hide PositionAt, FieldAt, PrecisionAt, EndingAt, Scan, TypeIs, AmountText, PrecisionText, PositionText, Known, Sizes, Ends,
      GoodAmount, Consumed, AmountArg, AmountLength, GoodPosition, PrecisionArg, GoodPrecision, Flags;
    var i2, i3 := WidthPlace(d, start), PrecisionPlace(d, start);
    var n1 := Consumed(d.width, posn);
    EndsApart(d.c);
    NextApart(f, start, d);
    OwnPositionHere(f, start, d);
    FlagsHere(f, FlagsPlace(d, start), d.flags);
    FewArguments(d.width, posn);
    AmountHere(f, i2, d.width, posn);
    PrecisionHere(f, i3, d.precision, n1);
    if d.precision.Some? { FewArguments(d.precision.value, n1); }
    ScanFrom(f, start, posn, OwnPosition(d, start), i2, FieldAt(f, i2, posn).value, PrecisionAt(f, i3, n1).value);
    EndingHere(f, SizePlace(d, start), d.size, d.c, OwnPosition(d, start), PrecisionAt(f, i3, n1).value.posn);
  }

  lemma FlagsHere(f: string, i: nat, flags: string)
    requires i + |flags| < |f| && f[i..i + |flags|] == flags && Flags(flags) && !IsFlag(f[i + |flags|])
    ensures FlagsEnd(f, i) == i + |flags| && forall x :: x in Chars(flags) <==> x in flags
  {
    assert forall j :: i <= j < i + |flags| ==> f[j] == flags[j - i];
    FlagsEndAt(f, i, i + |flags|);
  }

  lemma FewArguments(a: Amount, posn: nat)
    ensures posn <= Consumed(a, posn) <= posn + 1
  {}

  /** A position that is 0, or does not fit, is an error. */
  lemma BadPositionRefused(f: string, start: nat, posn: nat, s: string)
    requires start + 1 + |s| < |f| && f[start + 1..start + 1 + |s|] == s && f[start + 1 + |s|] == '$'
    requires s != "" && Digits(s) && (Value(s) == 0 || Value(s) >= 0xFFFF_FFFF_FFFF_FFFF)
    ensures Scan(f, start, posn) == None
  {
    hide PositionAt, FieldAt, PrecisionAt, EndingAt;
    PositionHere(f, start + 1, s);
  }

  /** A format of one directive without positions: the parser's answer, with the types of the
      arguments. */
  method ParseOne(d: Parts) returns (r: Option<Parsed>)
    requires Good(d) && Ends(d.c) && d.pos == None && !d.width.Numbered?
    requires d.precision.Some? ==> !d.precision.value.Numbered?
    ensures r.Some? <==> Known(d.c)
    ensures Known(d.c) ==>
      var stars := (if d.width.Next? then 1 else 0) + (if d.precision == Some(Next) then 1 else 0);
      && |r.value.dirs| == 1 && |r.value.args| == stars + (if d.c == '%' then 0 else 1)
      && (forall j :: 0 <= j < stars ==> r.value.args[j] == Int)
      && (d.c != '%' ==> TypeIs(d.c, d.size, r.value.args[stars]))
  {
    hide Text, Ends, Known, TypeIs, Scan, Stands, RegisterAll, ParseFrom, FlagsPlace, WidthPlace, PrecisionPlace;
    r := Parse(Text(d));
    TextStands(d);
    DirectiveScanned(Text(d), 0, 0, d);
    OnlyDirective(Text(d), d);
    ghost var s := Scan(Text(d), 0, 0);
    if Known(d.c) {
      RegisteredInTurn(s.value.dir, d.width.Next?, d.precision == Some(Next));
    }
  }

  lemma OnlyDirective(f: string, d: Parts)
    requires Stands(f, 0, d) && ConversionPlace(d, 0) + 1 == |f|
    requires Scan(f, 0, 0).Some? ==> Scan(f, 0, 0).value.dir.end == |f|
    ensures match Scan(f, 0, 0)
            case None => ParseFrom(f, 0, 0, []) == None
            case Some(s) =>
              match RegisterAll([], s.dir)
              case None => ParseFrom(f, 0, 0, []) == None
              case Some(args) =>
                ParseFrom(f, 0, 0, []).Some? && ParseFrom(f, 0, 0, []).value.dirs == [s.dir]
                && ParseFrom(f, 0, 0, []).value.args == args
  {
    hide Scan, RegisterAll;
  }

  /** The arguments of the first directive, when they are taken in turn. */
  lemma RegisteredInTurn(dir: Directive, star: bool, dotStar: bool)
    requires dir.widthArg == if star then Some(0) else None
    requires dir.precArg == if dotStar then Some(if star then 1 else 0) else None
    requires dir.argIndex.Some? ==> dir.argIndex == Some((if star then 1 else 0) + (if dotStar then 1 else 0))
    ensures RegisterAll([], dir) == Some([] + (if star then [Int] else []) + (if dotStar then [Int] else [])
      + (if dir.argIndex.Some? then [dir.argType] else []))
  {
    hide RegisterIf;
    var a1 := [] + (if star then [Int] else []);
    var a2 := a1 + (if dotStar then [Int] else []);
    RegisteredNext([], dir.widthArg, Int);
    RegisteredNext(a1, dir.precArg, Int);
    RegisteredNext(a2, dir.argIndex, dir.argType);
  }

  lemma RegisteredNext(args: seq<ArgType>, n: Option<nat>, t: ArgType)
    requires n == None || n == Some(|args|)
    ensures RegisterIf(args, n, t) == Some(args + (if n.Some? then [t] else []))
  {
    hide Register;
    assert args + [] == args;
    NextIs(args, t);
  }

  lemma NextIs(args: seq<ArgType>, t: ArgType)
    ensures Register(args, |args|, t) == Some(args + [t])
  {
    assert (args + Untyped(1))[|args| := t] == args + [t];
  }

  // A whole format.

  /** A literal, and the directive that follows it. */
  datatype Piece = Piece(literal: string, d: Parts)

  /** From i on, the format is these pieces and then a literal. */
  ghost predicate Composed(f: string, i: nat, pieces: seq<Piece>)
    decreases |pieces|
  {
    if pieces == [] then i <= |f| && '%' !in f[i..]
    else
      var start := i + |pieces[0].literal|;
      && start <= |f| && '%' !in pieces[0].literal && f[i..start] == pieces[0].literal && Stands(f, start, pieces[0].d)
      && Composed(f, ConversionPlace(pieces[0].d, start) + 1, pieces[1..])
  }

  /** A well-formed directive that takes its arguments in turn. */
  predicate InTurn(d: Parts) {
    Good(d) && Ends(d.c) && d.pos == None && !d.width.Numbered? && (d.precision.Some? ==> !d.precision.value.Numbered?)
  }

  lemma {:induction false} LiteralSkipped(f: string, i: nat, e: nat, posn: nat, args: seq<ArgType>)
    requires i <= e <= |f| && '%' !in f[i..e]
    ensures ParseFrom(f, i, posn, args) == ParseFrom(f, e, posn, args)
    decreases e - i
  {
    hide Scan, RegisterAll;
    if i < e {
      assert f[i] == f[i..e][0];
      assert f[i + 1..e] == f[i..e][1..];
      LiteralSkipped(f, i + 1, e, posn, args);
    }
  }

  /** How many arguments a directive takes in turn. */
  function Taken(d: Parts): nat {
    (if d.width.Next? then 1 else 0) + (if d.precision == Some(Next) then 1 else 0) + (if d.c == '%' then 0 else 1)
  }

  /** The arguments so far are registered without a gap, so that a directive's own are new. */
  lemma DirectiveRegistered(f: string, start: nat, posn: nat, d: Parts, args: seq<ArgType>)
    requires Stands(f, start, d) && InTurn(d) && Known(d.c) && posn + 3 < 0xFFFF_FFFF_FFFF_FFFF && |args| == posn
    ensures Scan(f, start, posn).Some? && Scan(f, start, posn).value.posn == posn + Taken(d)
    ensures var dir := Scan(f, start, posn).value.dir;
      && dir.start == start && dir.end == ConversionPlace(d, start) + 1
      && RegisterAll(args, dir).Some? && |RegisterAll(args, dir).value| == |args| + Taken(d)
      && RegisterAll(args, dir) == Some(args + (if d.width.Next? then [Int] else [])
           + (if d.precision == Some(Next) then [Int] else []) + (if d.c == '%' then [] else [dir.argType]))
  {
    hide Scan, Stands, RegisterIf, Known, Ends, TypeIs;
    DirectiveScanned(f, start, posn, d);
    var dir := Scan(f, start, posn).value.dir;
    var a1 := args + (if d.width.Next? then [Int] else []);
    var a2 := a1 + (if d.precision == Some(Next) then [Int] else []);
    RegisteredNext(args, dir.widthArg, Int);
    RegisteredNext(a1, dir.precArg, Int);
    RegisteredNext(a2, dir.argIndex, dir.argType);
  }

  /** The starts of the directives of a format, in order. */
  ghost predicate FoundAll(dirs: seq<Directive>, i: nat, pieces: seq<Piece>)
    decreases |pieces|
  {
    if pieces == [] then dirs == []
    else
      var start := i + |pieces[0].literal|;
      dirs != [] && dirs[0].start == start && FoundAll(dirs[1..], ConversionPlace(pieces[0].d, start) + 1, pieces[1..])
  }

  /** A format of literals and directives that take their arguments in turn is parsed exactly if
      all conversions are known, and then all of its directives are found. */
  lemma {:induction false} FormatParsed(f: string, i: nat, posn: nat, args: seq<ArgType>, pieces: seq<Piece>)
    requires Composed(f, i, pieces) && i <= |f| && |args| == posn
    requires (forall p :: p in pieces ==> InTurn(p.d)) && posn + 3 * |pieces| + 3 < 0xFFFF_FFFF_FFFF_FFFF
    ensures ParseFrom(f, i, posn, args).Some? <==> forall p :: p in pieces ==> Known(p.d.c)
    ensures ParseFrom(f, i, posn, args).Some? ==> FoundAll(ParseFrom(f, i, posn, args).value.dirs, i, pieces)
    decreases |pieces|
  {
    hide Scan, RegisterAll, Known, InTurn, Stands, ParseFrom, ConversionPlace, Taken;
    if pieces == [] {
      LiteralSkipped(f, i, |f|, posn, args);
      NothingLeft(f, posn, args);
    } else {
      var d := pieces[0].d;
      var start := i + |pieces[0].literal|;
      var end := ConversionPlace(d, start) + 1;
      assert pieces[0] in pieces;
      assert forall p :: p in pieces <==> p == pieces[0] || p in pieces[1..];
      LiteralSkipped(f, i, start, posn, args);
      Begins(f, start, d);
      if Known(d.c) {
        DirectiveRegistered(f, start, posn, d, args);
        var s := Scan(f, start, posn).value;
        var args' := RegisterAll(args, s.dir).value;
        FewTaken(d);
        FormatParsed(f, end, s.posn, args', pieces[1..]);
        DirectiveStep(f, start, posn, args, s, args');
      } else {
        Refused(f, start, posn, d);
        RefusedStep(f, start, posn, args);
      }
    }
  }

  lemma NothingLeft(f: string, posn: nat, args: seq<ArgType>)
    ensures ParseFrom(f, |f|, posn, args) == Some(Parsed([], args, 0, 0))
  {}

  lemma FewTaken(d: Parts)
    ensures Taken(d) <= 3
  {}

  lemma DirectiveStep(f: string, start: nat, posn: nat, args: seq<ArgType>, s: Scanned, args': seq<ArgType>)
    requires start < |f| && f[start] == '%' && Scan(f, start, posn) == Some(s) && RegisterAll(args, s.dir) == Some(args')
    ensures var r, rest := ParseFrom(f, start, posn, args), ParseFrom(f, s.dir.end, s.posn, args');
      (r.Some? <==> rest.Some?) && (r.Some? ==> r.value.dirs == [s.dir] + rest.value.dirs)
  {
    hide Scan, RegisterAll;
  }

  lemma RefusedStep(f: string, start: nat, posn: nat, args: seq<ArgType>)
    requires start < |f| && f[start] == '%' && Scan(f, start, posn) == None
    ensures ParseFrom(f, start, posn, args) == None
  {
    hide Scan, RegisterAll;
  }

  lemma Begins(f: string, start: nat, d: Parts)
    requires Stands(f, start, d)
    ensures start < |f| && f[start] == '%' && ConversionPlace(d, start) < |f|
  {}

  lemma Refused(f: string, start: nat, posn: nat, d: Parts)
    requires Stands(f, start, d) && InTurn(d) && !Known(d.c) && posn + 3 < 0xFFFF_FFFF_FFFF_FFFF
    ensures Scan(f, start, posn) == None
  {
    hide Scan, Stands, Known, Ends;
    DirectiveScanned(f, start, posn, d);
  }
}
