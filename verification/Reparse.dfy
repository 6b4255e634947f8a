/** A sub-format rebuilt from a directive parses to a directive with the same meaning. */
module Reparse {
  import opened Options
  import opened PrintfParse
  import opened FormatFacts

  predicate AllDigits(s: string) { forall j :: 0 <= j < |s| ==> IsDigit(s[j]) }
  predicate AllFlags(s: string) { forall j :: 0 <= j < |s| ==> IsFlag(s[j]) }
  predicate AllSizes(s: string) { forall j :: 0 <= j < |s| ==> IsSize(s[j]) }

  /** A width that can follow the flags. */
  predicate IsWidth(s: string) { s == "*" || (AllDigits(s) && (s == "" || s[0] != '0')) }
  predicate IsPrecision(s: string) { s == "" || (s[0] == '.' && (s[1..] == "*" || AllDigits(s[1..]))) }

  /** A width or precision that is given by an argument. */
  predicate Star(s: string) { s == "*" }
  predicate DotStar(s: string) { s == ".*" }

  /** The character that comes next. */
  predicate Follows(c: char) { c != '$' && !IsDigit(c) && !IsFlag(c) && c != '*' }

  // Each of the scanning functions finds the end of its part, whatever precedes it.

  lemma {:induction false} DigitsEndAt(f: string, i: nat, e: nat)
    requires i <= e <= |f| && (forall j :: i <= j < e ==> IsDigit(f[j])) && !IsDigit(Peek(f, e))
    ensures DigitsEnd(f, i) == e
    decreases e - i
  {
    if i < e { DigitsEndAt(f, i + 1, e); }
  }

  lemma {:induction false} FlagsEndAt(f: string, i: nat, e: nat)
    requires i <= e <= |f| && (forall j :: i <= j < e ==> IsFlag(f[j])) && !IsFlag(Peek(f, e))
    ensures FlagsEnd(f, i) == e
    decreases e - i
  {
    if i < e { FlagsEndAt(f, i + 1, e); }
  }

  lemma {:induction false} SizeEndAt(f: string, i: nat, e: nat)
    requires i <= e <= |f| && (forall j :: i <= j < e ==> IsSize(f[j])) && !IsSize(Peek(f, e))
    ensures SizeEnd(f, i) == e
    decreases e - i
  {
    if i < e { SizeEndAt(f, i + 1, e); }
  }

  lemma NoDollar(f: string, i: nat)
    requires i <= |f| && '$' !in f
    ensures PositionAt(f, i) == NoPosition
  {}

  /** A width or precision that ends at e, with an argument if it is a star. */
  function Found(e: nat, star: bool, posn: nat): (r: Field)
    ensures r.textEnd == r.next == e
  {
    if star then Field(e, e, Some(posn), posn + 1) else Field(e, e, None, posn)
  }

  lemma FieldFound(f: string, i: nat, text: string, posn: nat)
    requires i + |text| <= |f| && f[i..i + |text|] == text && '$' !in f && posn < SIZEMAX
    requires text == "*" || (AllDigits(text) && !IsDigit(Peek(f, i + |text|)) && Peek(f, i + |text|) != '*')
    ensures var e := i + |text|;
      FieldAt(f, i, posn) == Some(Found(e, Star(text), posn))
  {
    assert forall j :: 0 <= j < |text| ==> f[i + j] == text[j];
    if text == "*" {
      NoDollar(f, i + 1);
    } else {
      assert forall j :: i <= j < i + |text| ==> f[j] == text[j - i];
      DigitsEndAt(f, i, i + |text|);
    }
  }

  /** The parts of a directive without positions, written one after the other. */
  function Written(flags: string, width: string, precision: string, size: string, c: char): string {
    "%" + flags + width + precision + size + [c]
  }

  lemma WrittenPlaces(flags: string, width: string, precision: string, size: string, c: char)
    ensures var f := Written(flags, width, precision, size, c);
      var i2 := 1 + |flags|; var i3 := i2 + |width|; var i4 := i3 + |precision|; var i5 := i4 + |size|;
      && |f| == i5 + 1 && f[0] == '%' && f[i5] == c
      && f[1..i2] == flags && f[i2..i3] == width && f[i3..i4] == precision && f[i4..i5] == size
      && (forall j :: 0 <= j < |flags| ==> f[1 + j] == flags[j])
      && (forall j :: 0 <= j < |width| ==> f[i2 + j] == width[j])
      && (forall j :: 0 <= j < |precision| ==> f[i3 + j] == precision[j])
      && (forall j :: 0 <= j < |size| ==> f[i4 + j] == size[j])
  {}

  /** Conversions are none of the other characters of a directive. */
  lemma ConversionApart(c: char, s: Size)
    requires TypeOf(c, s).Some? && c != '%'
    ensures Follows(c) && c != '.' && !IsSize(c) && TypeOf(c, s).value != NoType
  {}

  lemma NoDollarWritten(flags: string, width: string, precision: string, size: string, c: char)
    requires AllFlags(flags) && IsWidth(width) && IsPrecision(precision) && AllSizes(size) && c != '$'
    ensures '$' !in Written(flags, width, precision, size, c)
  {
    assert forall x :: x in precision ==> x == '.' || x == '*' || IsDigit(x) by {
      forall x | x in precision
        ensures x == '.' || x == '*' || IsDigit(x)
      {
        var j :| 0 <= j < |precision| && precision[j] == x;
        assert j > 0 ==> precision[1..][j - 1] == x;
      }
    }
  }

  lemma EndingFound(f: string, i: nat, size: string, c: char, posn: nat)
    requires i + |size| + 1 == |f| && f[i..i + |size|] == size && f[i + |size|] == c
    requires AllSizes(size) && !IsSize(c) && posn < SIZEMAX
    requires TypeOf(c, SizeOf(size)).Some? && TypeOf(c, SizeOf(size)).value != NoType
    ensures EndingAt(f, i, NoPosition, posn)
      == Some(Ending(|f|, Stored(c), TypeOf(c, SizeOf(size)).value, Some(posn), posn + 1))
  {
    hide SizeOf, TypeOf;
    assert forall j :: i <= j < i + |size| ==> f[j] == size[j - i];
    SizeEndAt(f, i, i + |size|);
  }

  /** After the % come the flags and no position. */
  predicate FlagsFound(f: string, i2: nat, flags: string) {
    1 <= i2 <= |f| && PositionAt(f, 1) == NoPosition && FlagsEnd(f, 1) == i2 && f[1..i2] == flags
  }

  /** Scan in terms of what its parts find. */
  lemma ScanParts(f: string, flags: string, i2: nat, i3: nat, i4: nat, w: Field, q: Field, e: Ending)
    requires 0 < |f| && i2 <= |f| && i3 <= |f| && i4 <= |f| && FlagsFound(f, i2, flags)
    requires FieldAt(f, i2, 0) == Some(w) && w.next == i3
    requires PrecisionAt(f, i3, w.posn) == Some(q) && q.next == i4
    requires EndingAt(f, i4, NoPosition, q.posn) == Some(e)
    ensures Scan(f, 0, 0) == Some(Scanned(
      Directive(0, e.end, Chars(flags), i2, w.textEnd, w.arg, i3, q.textEnd, q.arg,
                e.conversion, e.arg, e.argType), e.posn))
  {
    hide PositionAt, FieldAt, PrecisionAt, EndingAt;
  }

  /** Scanning what has been written finds its parts again, and numbers its arguments from 0:
      the width's, the precision's and the value's. */
  lemma ScanWritten(flags: string, width: string, precision: string, size: string, c: char)
    requires AllFlags(flags) && IsWidth(width) && IsPrecision(precision) && AllSizes(size)
    requires TypeOf(c, SizeOf(size)).Some? && c != '%'
    ensures var f := Written(flags, width, precision, size, c);
      var i2 := 1 + |flags|; var i3 := i2 + |width|; var i4 := i3 + |precision|;
      var w := Found(i3, Star(width), 0);
      var q := Found(i4, DotStar(precision), w.posn);
      Scan(f, 0, 0) == Some(Scanned(
        Directive(0, |f|, Chars(flags), i2, i3, w.arg, i3, i4, q.arg,
                  Stored(c), Some(q.posn), TypeOf(c, SizeOf(size)).value),
        q.posn + 1))
  {
    hide *;
    ConversionApart(c, SizeOf(size));
    var f := Written(flags, width, precision, size, c);
    var i2 := 1 + |flags|;
    var i3 := i2 + |width|;
    var i4 := i3 + |precision|;
    var w := Found(i3, Star(width), 0);
    var q := Found(i4, DotStar(precision), w.posn);
    WrittenLength(flags, width, precision, size, c);
    var t := TypeOf(c, SizeOf(size)).value;
    ScanWrittenAt(flags, width, precision, size, c, f, i2, i3, i4, w, q, w.posn, q.posn, t);
  }

  lemma ScanWrittenAt(flags: string, width: string, precision: string, size: string, c: char,
                      f: string, i2: nat, i3: nat, i4: nat, w: Field, q: Field, n1: nat, n2: nat, t: ArgType)
    requires AllFlags(flags) && IsWidth(width) && IsPrecision(precision) && AllSizes(size)
    requires Follows(c) && c != '.' && !IsSize(c) && TypeOf(c, SizeOf(size)) == Some(t) && t != NoType
    requires f == Written(flags, width, precision, size, c) && i2 == 1 + |flags| && i3 == i2 + |width| && i4 == i3 + |precision|
    requires |f| == i4 + |size| + 1
    requires w == Found(i3, Star(width), 0) && n1 == w.posn && q == Found(i4, DotStar(precision), n1) && n2 == q.posn
    ensures Scan(f, 0, 0) == Some(Scanned(
      Directive(0, |f|, Chars(flags), i2, i3, w.arg, i3, i4, q.arg, Stored(c), Some(n2), t), n2 + 1))
  {
    hide *;
    FewConsumed(width, precision, i3, i4, w, q);
    FlagsWritten(flags, width, precision, size, c, f, i2);
    WidthWritten(flags, width, precision, size, c, f, i2, i3);
    PrecisionWritten(flags, width, precision, size, c, f, i3, i4, n1);
    EndingWritten(flags, width, precision, size, c, f, i4, n2);
    ScanParts(f, flags, i2, i3, i4, w, q, Ending(|f|, Stored(c), t, Some(n2), n2 + 1));
  }

  lemma FewConsumed(width: string, precision: string, i3: nat, i4: nat, w: Field, q: Field)
    requires w == Found(i3, Star(width), 0) && q == Found(i4, DotStar(precision), w.posn)
    ensures w.posn < SIZEMAX && q.posn < SIZEMAX
  {}

  lemma WrittenLength(flags: string, width: string, precision: string, size: string, c: char)
    ensures var f := Written(flags, width, precision, size, c);
      |f| == 2 + |flags| + |width| + |precision| + |size|
  {}

  lemma FlagsWritten(flags: string, width: string, precision: string, size: string, c: char, f: string, i2: nat)
    requires AllFlags(flags) && IsWidth(width) && IsPrecision(precision) && AllSizes(size)
    requires Follows(c) && c != '.' && !IsSize(c)
    requires f == Written(flags, width, precision, size, c) && i2 == 1 + |flags|
    ensures FlagsFound(f, i2, flags)
  {
    WrittenPlaces(flags, width, precision, size, c);
    NoDollarWritten(flags, width, precision, size, c);
    Nexts(flags, width, precision, size, c);
    hide Written, IsWidth, IsPrecision;
    NoDollar(f, 1);
    assert forall j :: 1 <= j < 1 + |flags| ==> f[j] == flags[j - 1];
    FlagsEndAt(f, 1, 1 + |flags|);
  }

  lemma WidthWritten(flags: string, width: string, precision: string, size: string, c: char, f: string, i2: nat, i3: nat)
    requires AllFlags(flags) && IsWidth(width) && IsPrecision(precision) && AllSizes(size)
    requires Follows(c) && c != '.' && !IsSize(c)
    requires f == Written(flags, width, precision, size, c) && i2 == 1 + |flags| && i3 == i2 + |width|
    ensures i2 <= |f| && FieldAt(f, i2, 0) == Some(Found(i3, Star(width), 0))
  {
    WrittenPlaces(flags, width, precision, size, c);
    NoDollarWritten(flags, width, precision, size, c);
    Nexts(flags, width, precision, size, c);
    hide Written, IsWidth, IsPrecision, FieldAt, PrecisionAt, AllFlags, AllSizes, Found, Star;
    WidthFound(f, i2, width, 0);
  }

  lemma PrecisionWritten(flags: string, width: string, precision: string, size: string, c: char, f: string,
                         i3: nat, i4: nat, posn: nat)
    requires AllFlags(flags) && IsWidth(width) && IsPrecision(precision) && AllSizes(size)
    requires Follows(c) && c != '.' && !IsSize(c) && posn < SIZEMAX
    requires f == Written(flags, width, precision, size, c) && i3 == 1 + |flags| + |width| && i4 == i3 + |precision|
    ensures i3 <= |f| && PrecisionAt(f, i3, posn) == Some(Found(i4, DotStar(precision), posn))
  {
    WrittenPlaces(flags, width, precision, size, c);
    NoDollarWritten(flags, width, precision, size, c);
    Nexts(flags, width, precision, size, c);
    hide Written, IsWidth, IsPrecision, FieldAt, PrecisionAt, AllFlags, AllSizes, Found, DotStar;
    PrecisionFound(f, i3, precision, posn);
  }

  lemma EndingWritten(flags: string, width: string, precision: string, size: string, c: char, f: string, i4: nat, posn: nat)
    requires AllSizes(size) && !IsSize(c) && posn < SIZEMAX
    requires TypeOf(c, SizeOf(size)).Some? && TypeOf(c, SizeOf(size)).value != NoType
    requires f == Written(flags, width, precision, size, c) && i4 == 1 + |flags| + |width| + |precision|
    ensures i4 <= |f|
    ensures EndingAt(f, i4, NoPosition, posn)
      == Some(Ending(|f|, Stored(c), TypeOf(c, SizeOf(size)).value, Some(posn), posn + 1))
  {
    hide SizeOf, TypeOf, EndingAt, AllSizes;
    WrittenPlaces(flags, width, precision, size, c);
    hide Written;
    EndingFound(f, i4, size, c, posn);
  }

  /** What follows each part. */
  lemma Nexts(flags: string, width: string, precision: string, size: string, c: char)
    requires IsWidth(width) && IsPrecision(precision) && AllSizes(size)
    requires Follows(c) && c != '.' && !IsSize(c)
    ensures var f := Written(flags, width, precision, size, c);
      var i2 := 1 + |flags|; var i3 := i2 + |width|; var i4 := i3 + |precision|; var i5 := i4 + |size|;
      && !IsFlag(Peek(f, i2))
      && !IsDigit(Peek(f, i3)) && Peek(f, i3) != '*'
      && (precision == "" ==> Peek(f, i3) != '.')
      && !IsDigit(Peek(f, i4)) && Peek(f, i4) != '*'
      && !IsSize(Peek(f, i5))
  {
    WrittenPlaces(flags, width, precision, size, c);
  }

  lemma WidthFound(f: string, i: nat, width: string, posn: nat)
    requires IsWidth(width) && i + |width| <= |f| && f[i..i + |width|] == width && '$' !in f && posn < SIZEMAX
    requires !IsDigit(Peek(f, i + |width|)) && Peek(f, i + |width|) != '*'
    ensures var e := i + |width|;
      FieldAt(f, i, posn) == Some(Found(e, Star(width), posn))
  {
    FieldFound(f, i, width, posn);
  }

  lemma PrecisionFound(f: string, i: nat, precision: string, posn: nat)
    requires IsPrecision(precision) && i + |precision| <= |f| && f[i..i + |precision|] == precision
    requires '$' !in f && posn < SIZEMAX
    requires !IsDigit(Peek(f, i + |precision|)) && Peek(f, i + |precision|) != '*'
    requires precision == "" ==> Peek(f, i) != '.'
    ensures var e := i + |precision|;
      PrecisionAt(f, i, posn) == Some(Found(e, DotStar(precision), posn))
  {
    if precision != "" {
      assert f[i] == f[i..i + |precision|][0];
      assert f[i + 1..i + |precision|] == precision[1..];
      assert precision == "." + precision[1..];
      FieldFound(f, i + 1, precision[1..], posn);
    }
  }

  // The parts of a scanned directive.

  /** What the default argument promotions make of a type; the sub-format has no h. */
  function Promoted(t: ArgType): ArgType {
    match t
    case SChar | Short => Int
    case UChar | UShort => UInt
    case _ => t
  }

  lemma SizeLettersKeepType(c: char, s: Size)
    requires TypeOf(c, s).Some? && c != '%' && c != 'n'
    ensures AllSizes(SizeLetters(TypeOf(c, s).value))
    ensures TypeOf(Stored(c), SizeOf(SizeLetters(TypeOf(c, s).value))) == Some(Promoted(TypeOf(c, s).value))
    ensures Stored(Stored(c)) == Stored(c) != '%'
  {
    assert SizeOf("l") == Size(false, false, false, 1) by { assert "l"[..0] == ""; }
    assert SizeOf("ll") == Size(false, false, false, 2) by { assert "ll"[..1] == "l"; }
    assert SizeOf("L") == Size(false, false, true, 0) by { assert "L"[..0] == ""; }
  }

  lemma FlagTextKeepsFlags(flags: set<char>, zero: bool)
    requires forall x :: x in flags ==> IsFlag(x)
    ensures AllFlags(FlagText(flags, zero))
    ensures Chars(FlagText(flags, zero)) == if zero then flags else flags - {'0'}
  {}

  /** The width and precision that Scan finds can be written again. */
  lemma FieldText(f: string, i: nat, posn: nat)
    requires i <= |f| && FieldAt(f, i, posn).Some?
    ensures var e := FieldAt(f, i, posn).value.textEnd; e <= |f| && (f[i..e] == "*" || AllDigits(f[i..e]))
    ensures FieldAt(f, i, posn).value.arg.Some? <==> Peek(f, i) == '*'
  {}

  lemma ScannedParts(f: string, start: nat, posn: nat)
    requires start < |f| && Scan(f, start, posn).Some?
    ensures var d := Scan(f, start, posn).value.dir;
      && InFormat(f, d) && (forall x :: x in d.flags ==> IsFlag(x))
      && IsWidth(f[d.widthStart..d.widthEnd]) && IsPrecision(f[d.precStart..d.precEnd])
  {
    hide PositionAt, FieldAt, EndingAt;
    var i1 := Behind(PositionAt(f, start + 1), start + 1);
    var i2 := FlagsEnd(f, i1);
    FieldText(f, i2, posn);
    var w := FieldAt(f, i2, posn).value;
    assert i2 < |f| ==> !IsFlag(f[i2]);
    if Peek(f, w.next) == '.' {
      FieldText(f, w.next + 1, w.posn);
      var q := FieldAt(f, w.next + 1, w.posn).value;
      assert f[w.next..q.textEnd][1..] == f[w.next + 1..q.textEnd];
    }
  }

  lemma ScannedType(f: string, start: nat, posn: nat)
    requires start < |f| && Scan(f, start, posn).Some?
    ensures var d := Scan(f, start, posn).value.dir;
      exists c, s :: TypeOf(c, s) == Some(d.argType) && d.conversion == Stored(c)
  {
    hide PositionAt, FieldAt, PrecisionAt, TypeOf;
  }

  /** The sub-format is what has been written of some parts. */
  lemma SubFormatWritten(f: string, d: Directive, padOurselves: bool, precOurselves: bool)
    requires InFormat(f, d)
    ensures SubFormat(f, d, padOurselves, precOurselves) ==
      Written(FlagText(d.flags, !padOurselves),
              if padOurselves then "" else f[d.widthStart..d.widthEnd],
              if precOurselves then "" else f[d.precStart..d.precEnd],
              SizeLetters(d.argType), d.conversion)
  {
    hide FlagText, SizeLetters;
  }

  lemma DirectiveParts(f: string, start: nat, posn: nat)
    requires start < |f| && Scan(f, start, posn).Some?
    requires var d := Scan(f, start, posn).value.dir; d.argType != NoType && d.conversion != 'n'
    ensures var d := Scan(f, start, posn).value.dir;
      && InFormat(f, d) && (forall x :: x in d.flags ==> IsFlag(x))
      && IsWidth(f[d.widthStart..d.widthEnd]) && IsPrecision(f[d.precStart..d.precEnd])
      && AllSizes(SizeLetters(d.argType)) && d.conversion != '%'
      && TypeOf(d.conversion, SizeOf(SizeLetters(d.argType))) == Some(Promoted(d.argType))
      && Stored(d.conversion) == d.conversion
  {
    ScannedParts(f, start, posn);
    ScannedType(f, start, posn);
    var d := Scan(f, start, posn).value.dir;
    var c, s :| TypeOf(c, s) == Some(d.argType) && d.conversion == Stored(c);
    hide Scan;
    SizeLettersKeepType(c, s);
  }

  /** The sub-format of a directive parses, as a whole, to a directive with the same flags,
      width, precision and conversion, and with the promoted type, whose arguments are taken
      in the order width, precision, value; that is how snprintf is called with them. */
  lemma SubFormatReparses(f: string, start: nat, posn: nat, padOurselves: bool, precOurselves: bool)
    requires start < |f| && Scan(f, start, posn).Some?
    requires var d := Scan(f, start, posn).value.dir; d.argType != NoType && d.conversion != 'n'
    ensures var d := Scan(f, start, posn).value.dir;
      InFormat(f, d) &&
      var sub := SubFormat(f, d, padOurselves, precOurselves);
      var width := if padOurselves then "" else f[d.widthStart..d.widthEnd];
      var precision := if precOurselves then "" else f[d.precStart..d.precEnd];
      Scan(sub, 0, 0).Some? &&
      var e := Scan(sub, 0, 0).value.dir;
      && e.end == |sub| && InFormat(sub, e)
      && e.flags == (if padOurselves then d.flags - {'0'} else d.flags)
      && sub[e.widthStart..e.widthEnd] == width && sub[e.precStart..e.precEnd] == precision
      && e.conversion == d.conversion && e.argType == Promoted(d.argType)
      && e.widthArg == (if width == "*" then Some(0) else None)
      && e.precArg == (if precision == ".*" then Some(if width == "*" then 1 else 0) else None)
      && e.argIndex == Some((if width == "*" then 1 else 0) + (if precision == ".*" then 1 else 0))
  {
    hide Scan, TypeOf, SizeOf, SizeLetters, FlagText, IsPrecision, IsWidth, SubFormat, Written, Stored, Promoted;
    var d := Scan(f, start, posn).value.dir;
    DirectiveParts(f, start, posn);
    FlagTextKeepsFlags(d.flags, !padOurselves);
    EmptyParts();
    var width := if padOurselves then "" else f[d.widthStart..d.widthEnd];
    var precision := if precOurselves then "" else f[d.precStart..d.precEnd];
    var flags, size := FlagText(d.flags, !padOurselves), SizeLetters(d.argType);
    SubFormatWritten(f, d, padOurselves, precOurselves);
    ScanWritten(flags, width, precision, size, d.conversion);
    WrittenPlaces(flags, width, precision, size, d.conversion);
  }

  lemma EmptyParts()
    ensures IsWidth("") && IsPrecision("")
  {}
}
