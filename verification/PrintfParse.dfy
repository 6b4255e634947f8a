/** Parsing of printf formats (PRINTF_PARSE in printf-parse.c), with the size arithmetic of
    xsize.h. A format is the characters before the terminating NUL. */
module PrintfParse {
  import opened Options

  const SIZEMAX := 0xFFFF_FFFF_FFFF_FFFF

  function Min(a: nat, b: nat): nat { if a <= b then a else b }
  function Max(a: nat, b: nat): nat { if a >= b then a else b }

  /** xsum and xtimes as the code computes them, on sizes up to SIZEMAX. */
  function Xsum(a: nat, b: nat): (r: nat)
    requires a <= SIZEMAX && b <= SIZEMAX
    ensures r == Min(a + b, SIZEMAX)
  {
    var sum := (a + b) % (SIZEMAX + 1);
    if sum >= a then sum else SIZEMAX
  }

  function Xtimes(n: nat, size: nat): (r: nat)
    requires size > 0 && n <= SIZEMAX
    ensures r == Min(n * size, SIZEMAX)
  {
    SaturatingProduct(n, size);
    if n <= SIZEMAX / size then n * size else SIZEMAX
  }

  lemma SaturatingProduct(n: nat, size: nat)
    requires size > 0
    ensures n <= SIZEMAX / size <==> n * size <= SIZEMAX
  {
    if n <= SIZEMAX / size {
      assert n * size <= SIZEMAX / size * size;
    } else {
      assert n * size >= (SIZEMAX / size + 1) * size;
    }
  }

  /** ARG_NONE is no index; arguments are numbered from 0 to SIZEMAX - 1. */
  datatype ArgType =
    | NoType
    | SChar | UChar | Short | UShort | Int | UInt | Long | ULong | LongLong | ULongLong
    | Double | LongDouble | Char | WideChar | Str | WideStr | Pointer
    | CountSChar | CountShort | CountInt | CountLong | CountLongLong

  /** A directive; its texts are given by their places in the format. The type of the argument
      is that which the parser registers for argIndex. */
  datatype Directive = Directive(
    start: nat, end: nat, flags: set<char>,
    widthStart: nat, widthEnd: nat, widthArg: Option<nat>,
    precStart: nat, precEnd: nat, precArg: Option<nat>,
    conversion: char, argIndex: Option<nat>, argType: ArgType)

  function Peek(f: string, i: nat): char { if i < |f| then f[i] else '\0' }

  predicate IsDigit(c: char) { '0' <= c <= '9' }
  function DigitValue(c: char): nat
    requires IsDigit(c)
  {
    c as int - '0' as int
  }

  predicate IsFlag(c: char) { c == '\'' || c == '-' || c == '+' || c == ' ' || c == '#' || c == '0' }

  /** The first place from i on that holds no digit, or no flag. */
  function DigitsEnd(f: string, i: nat): (e: nat)
    requires i <= |f|
    ensures i <= e <= |f| && (e == |f| || !IsDigit(f[e])) && forall j :: i <= j < e ==> IsDigit(f[j])
    decreases |f| - i
  {
    if i < |f| && IsDigit(f[i]) then DigitsEnd(f, i + 1) else i
  }

  function FlagsEnd(f: string, i: nat): (e: nat)
    requires i <= |f|
    ensures i <= e <= |f| && (e == |f| || !IsFlag(f[e])) && forall j :: i <= j < e ==> IsFlag(f[j])
    decreases |f| - i
  {
    if i < |f| && IsFlag(f[i]) then FlagsEnd(f, i + 1) else i
  }

  function Chars(s: string): set<char> { set c | c in s }

  /** The value of a string of digits. */
  function Decimal(s: string): nat
    requires forall j :: 0 <= j < |s| ==> IsDigit(s[j])
  {
    if s == [] then 0 else 10 * Decimal(s[..|s| - 1]) + DigitValue(s[|s| - 1])
  }

  /** A position like 2$: none, one that is 0 or too large, or the argument index and the place
      behind it. */
  datatype Position = NoPosition | BadPosition | At(index: nat, next: nat)

  function PositionAt(f: string, i: nat): (p: Position)
    requires i <= |f|
    ensures p.At? ==> i < p.next <= |f| && p.index < SIZEMAX - 1
  {
    var e := DigitsEnd(f, i);
    if e == i || Peek(f, e) != '$' then NoPosition
    else
      var n := Min(Decimal(f[i..e]), SIZEMAX);
      if n == 0 || n == SIZEMAX then BadPosition else At(n - 1, e + 1)
  }

  lemma SliceGrows(f: string, start: nat, cp: nat)
    requires start <= cp < |f|
    ensures var s := f[start..cp + 1];
      s[..|s| - 1] == f[start..cp] && s[|s| - 1] == f[cp] && s == f[start..cp] + [f[cp]]
  {}

  method ParsePosition(f: string, cp: nat) returns (p: Position)
    requires cp <= |f|
    ensures p == PositionAt(f, cp)
  {
    if !IsDigit(Peek(f, cp)) {
      return NoPosition;
    }
    var np := cp;
    while IsDigit(Peek(f, np))
      invariant cp <= np <= |f| && DigitsEnd(f, np) == DigitsEnd(f, cp)
      decreases |f| - np
    {
      np := np + 1;
    }
    if Peek(f, np) != '$' {
      return NoPosition;
    }
    ghost var e := np;
    var n: nat := 0;
    np := cp;
    assert f[cp..cp] == [];
    while IsDigit(Peek(f, np))
      invariant cp <= np <= e && n <= SIZEMAX && n == Min(Decimal(f[cp..np]), SIZEMAX)
      decreases |f| - np
    {
      SliceGrows(f, cp, np);
      n := Xsum(Xtimes(n, 10), DigitValue(f[np]));
      np := np + 1;
    }
    if n == 0 || n == SIZEMAX {
      return BadPosition;
    }
    return At(n - 1, np + 1);
  }

  /** What the size letters add up to: two bits for h, one for L, and the number of l; on the
      modelled platform long, intmax_t, size_t and ptrdiff_t have the same size. */
  datatype Size = Size(h: bool, hh: bool, big: bool, longs: nat)

  predicate IsSize(c: char) { c == 'h' || c == 'L' || c == 'l' || c == 'j' || c == 'z' || c == 'Z' || c == 't' }

  function SizeStep(s: Size, c: char): Size {
    if c == 'h' then if s.h then s.(hh := true) else s.(h := true)
    else if c == 'L' then s.(big := true)
    else s.(longs := s.longs + 1)
  }

  const PLAIN := Size(false, false, false, 0)

  function SizeEnd(f: string, i: nat): (e: nat)
    requires i <= |f|
    ensures i <= e <= |f| && (e == |f| || !IsSize(f[e])) && forall j :: i <= j < e ==> IsSize(f[j])
    decreases |f| - i
  {
    if i < |f| && IsSize(f[i]) then SizeEnd(f, i + 1) else i
  }

  function SizeOf(s: string): Size {
    if s == [] then PLAIN else SizeStep(SizeOf(s[..|s| - 1]), s[|s| - 1])
  }

  /** The type of the argument of a conversion; None for an unknown conversion. */
  function TypeOf(c: char, s: Size): Option<ArgType> {
    var longlong := s.longs >= 2 || s.big;
    if c == 'd' || c == 'i' then
      Some(if longlong then LongLong else if s.longs >= 1 then Long else if s.hh then SChar else if s.h then Short else Int)
    else if c == 'o' || c == 'u' || c == 'x' || c == 'X' then
      Some(if longlong then ULongLong else if s.longs >= 1 then ULong else if s.hh then UChar else if s.h then UShort else UInt)
    else if c == 'f' || c == 'F' || c == 'e' || c == 'E' || c == 'g' || c == 'G' || c == 'a' || c == 'A' then
      Some(if longlong then LongDouble else Double)
    else if c == 'c' then Some(if s.longs >= 1 then WideChar else Char)
    else if c == 'C' then Some(WideChar)
    else if c == 's' then Some(if s.longs >= 1 then WideStr else Str)
    else if c == 'S' then Some(WideStr)
    else if c == 'p' then Some(Pointer)
    else if c == 'n' then
      Some(if longlong then CountLongLong else if s.longs >= 1 then CountLong
           else if s.hh then CountSChar else if s.h then CountShort else CountInt)
    else if c == '%' then Some(NoType)
    else None
  }

  /** The conversion character that is stored: wide ones become c and s. */
  function Stored(c: char): char { if c == 'C' then 'c' else if c == 'S' then 's' else c }

  /** The argument at a position, or else the next one; with the number of arguments then
      consumed in order. */
  function Argument(p: Position, posn: nat): Option<(nat, nat)> {
    match p
    case BadPosition => None
    case At(index, _) => Some((index, posn))
    case NoPosition => if posn >= SIZEMAX then None else Some((posn, posn + 1))
  }

  function Behind(p: Position, i: nat): nat { if p.At? then p.next else i }

  /** A width or precision: its end, the place behind its position, its argument and the
      number of arguments consumed. */
  datatype Field = Field(textEnd: nat, next: nat, arg: Option<nat>, posn: nat)

  /** The * at i and a position behind it, or else the digits from i on. */
  function FieldAt(f: string, i: nat, posn: nat): (r: Option<Field>)
    requires i <= |f|
    ensures r.Some? ==> i <= r.value.textEnd <= r.value.next <= |f| && (posn <= SIZEMAX ==> r.value.posn <= SIZEMAX)
    ensures r.Some? && r.value.arg.Some? ==> r.value.arg.value < SIZEMAX
  {
    if Peek(f, i) == '*' then
      var p := PositionAt(f, i + 1);
      match Argument(p, posn)
      case None => None
      case Some((arg, posn')) => Some(Field(i + 1, Behind(p, i + 1), Some(arg), posn'))
    else
      var e := DigitsEnd(f, i);
      Some(Field(e, e, None, posn))
  }

  /** The size letters and conversion from i on: the place behind, the conversion, its type,
      its argument and the number of arguments consumed. */
  datatype Ending = Ending(end: nat, conversion: char, argType: ArgType, arg: Option<nat>, posn: nat)

  function EndingAt(f: string, i: nat, p: Position, posn: nat): (r: Option<Ending>)
    requires i <= |f|
    ensures r.Some? ==> i < r.value.end <= |f|
  {
    var e := SizeEnd(f, i);
    match TypeOf(Peek(f, e), SizeOf(f[i..e]))
    case None => None
    case Some(NoType) => Some(Ending(e + 1, Stored(f[e]), NoType, None, posn))
    case Some(t) =>
      match Argument(p, posn)
      case None => None
      case Some((arg, posn')) => Some(Ending(e + 1, Stored(f[e]), t, Some(arg), posn'))
  }

  /** The precision from i on, if there is a dot. */
  function PrecisionAt(f: string, i: nat, posn: nat): (r: Option<Field>)
    requires i <= |f|
    ensures r.Some? ==> i <= r.value.textEnd <= r.value.next <= |f|
  {
    if Peek(f, i) == '.' then FieldAt(f, i + 1, posn) else Some(Field(i, i, None, posn))
  }

  /** A parsed directive with the number of arguments consumed in order. */
  datatype Scanned = Scanned(dir: Directive, posn: nat)

  /** The directive whose % is at start. */
  function Scan(f: string, start: nat, posn: nat): (r: Option<Scanned>)
    requires start < |f|
    ensures r.Some? ==> r.value.dir.start == start && start + 1 < r.value.dir.end <= |f|
    ensures r.Some? ==> r.value.dir.widthStart <= r.value.dir.widthEnd && r.value.dir.precStart <= r.value.dir.precEnd
  {
    var p := PositionAt(f, start + 1);
    if p == BadPosition then None
    else
      var i1 := Behind(p, start + 1);
      var i2 := FlagsEnd(f, i1);
      match FieldAt(f, i2, posn)
      case None => None
      case Some(w) =>
        match PrecisionAt(f, w.next, w.posn)
        case None => None
        case Some(q) =>
          match EndingAt(f, q.next, p, q.posn)
          case None => None
          case Some(e) =>
            Some(Scanned(
              Directive(start, e.end, Chars(f[i1..i2]),
                        i2, w.textEnd, w.arg, w.next, q.textEnd, q.arg,
                        e.conversion, e.arg, e.argType),
              e.posn))
  }

  // The arguments.

  function Untyped(n: nat): seq<ArgType> { seq(n, _ => NoType) }

  /** REGISTER_ARG: the types with argument n of type t; None when it has another type. */
  function Register(args: seq<ArgType>, n: nat, t: ArgType): (r: Option<seq<ArgType>>)
    ensures r.Some? ==> n < |r.value| && r.value[n] == t && |args| <= |r.value| == Max(|args|, n + 1)
    ensures r.Some? ==> forall j :: 0 <= j < |args| && (args[j] != NoType || j != n) ==> r.value[j] == args[j]
    ensures r.Some? ==> forall j :: |args| <= j < n ==> r.value[j] == NoType
    ensures r.None? <==> n < |args| && args[n] != NoType && args[n] != t
  {
    var known := if n < |args| then args else args + Untyped(n + 1 - |args|);
    if known[n] == NoType || known[n] == t then Some(known[n := t]) else None
  }

  method RegisterArg(args: seq<ArgType>, n: nat, t: ArgType) returns (r: Option<seq<ArgType>>)
    ensures r == Register(args, n, t)
  {
    var known := args;
    while |known| <= n
      invariant |args| <= |known| && (|known| == |args| || |known| <= n + 1)
      invariant known == args + Untyped(|known| - |args|)
      decreases n + 1 - |known|
    {
      known := known + [NoType];
    }
    if known[n] == NoType {
      known := known[n := t];
    } else if known[n] != t {
      return None;
    }
    assert known[n := t] == known;
    return Some(known);
  }

  function RegisterIf(args: seq<ArgType>, n: Option<nat>, t: ArgType): Option<seq<ArgType>> {
    if n == None then Some(args) else Register(args, n.value, t)
  }

  /** A directive's width, precision and value arguments, in that order. */
  function RegisterAll(args: seq<ArgType>, d: Directive): Option<seq<ArgType>> {
    match RegisterIf(args, d.widthArg, Int)
    case None => None
    case Some(a1) =>
      match RegisterIf(a1, d.precArg, Int)
      case None => None
      case Some(a2) => RegisterIf(a2, d.argIndex, d.argType)
  }

  datatype Parsed = Parsed(dirs: seq<Directive>, args: seq<ArgType>, maxWidth: nat, maxPrecision: nat)

  /** The rest of the parse, from i on. */
  function ParseFrom(f: string, i: nat, posn: nat, args: seq<ArgType>): Option<Parsed>
    requires i <= |f|
    decreases |f| - i
  {
    if i == |f| then Some(Parsed([], args, 0, 0))
    else if f[i] != '%' then ParseFrom(f, i + 1, posn, args)
    else
      match Scan(f, i, posn)
      case None => None
      case Some(s) =>
        match RegisterAll(args, s.dir)
        case None => None
        case Some(args') =>
          match ParseFrom(f, s.dir.end, s.posn, args')
          case None => None
          case Some(rest) =>
            Some(rest.(dirs := [s.dir] + rest.dirs,
                       maxWidth := Max(rest.maxWidth, s.dir.widthEnd - s.dir.widthStart),
                       maxPrecision := Max(rest.maxPrecision, s.dir.precEnd - s.dir.precStart)))
  }

  // The parser itself.

  method ParseFlags(f: string, start: nat) returns (cp: nat, flags: set<char>)
    requires start <= |f|
    ensures cp == FlagsEnd(f, start) && flags == Chars(f[start..cp])
  {
    cp, flags := start, {};
    while IsFlag(Peek(f, cp))
      invariant start <= cp <= |f| && FlagsEnd(f, cp) == FlagsEnd(f, start)
      invariant flags == Chars(f[start..cp])
      decreases |f| - cp
    {
      SliceGrows(f, start, cp);
      flags := flags + {f[cp]};
      cp := cp + 1;
    }
  }

  method SkipDigits(f: string, start: nat) returns (cp: nat)
    requires start <= |f|
    ensures cp == DigitsEnd(f, start)
  {
    cp := start;
    while IsDigit(Peek(f, cp))
      invariant start <= cp <= |f| && DigitsEnd(f, cp) == DigitsEnd(f, start)
      decreases |f| - cp
    {
      cp := cp + 1;
    }
  }

  method ParseSize(f: string, start: nat) returns (cp: nat, size: Size)
    requires start <= |f|
    ensures cp == SizeEnd(f, start) && size == SizeOf(f[start..cp])
  {
    cp, size := start, PLAIN;
    assert f[start..start] == [];
    while IsSize(Peek(f, cp))
      invariant start <= cp <= |f| && SizeEnd(f, cp) == SizeEnd(f, start)
      invariant size == SizeOf(f[start..cp])
      decreases |f| - cp
    {
      SliceGrows(f, start, cp);
      size := SizeStep(size, f[cp]);
      cp := cp + 1;
    }
  }

  /** A width, or a precision behind its dot. */
  method ParseField(f: string, start: nat, posn: nat, args: seq<ArgType>)
    returns (r: Option<Field>, registered: Option<seq<ArgType>>)
    requires start <= |f|
    ensures r == FieldAt(f, start, posn)
    ensures r.Some? ==> registered == RegisterIf(args, r.value.arg, Int)
  {
    if Peek(f, start) == '*' {
      var cp := start + 1;
      var p := ParsePosition(f, cp);
      var index, posn' := 0, posn;
      match p {
        case BadPosition => return None, None;
        case At(n, next) =>
          index := n;
          cp := next;
        case NoPosition =>
          index := posn;
          if index >= SIZEMAX {
            return None, None;
          }
          posn' := posn + 1;
      }
      registered := RegisterArg(args, index, Int);
      return Some(Field(start + 1, cp, Some(index), posn')), registered;
    }
    var cp := SkipDigits(f, start);
    return Some(Field(cp, cp, None, posn)), Some(args);
  }

  method ParseEnding(f: string, start: nat, p: Position, posn: nat) returns (r: Option<Ending>)
    requires start <= |f|
    ensures r == EndingAt(f, start, p, posn)
  {
    var cp, size := ParseSize(f, start);
    var c := Peek(f, cp);
    var t := TypeOf(c, size);
    if t == None {
      return None;
    }
    if t.value == NoType {
      return Some(Ending(cp + 1, Stored(c), NoType, None, posn));
    }
    match p
    case BadPosition => return None;
    case At(index, _) => return Some(Ending(cp + 1, Stored(c), t.value, Some(index), posn));
    case NoPosition =>
      if posn >= SIZEMAX {
        return None;
      }
      return Some(Ending(cp + 1, Stored(c), t.value, Some(posn), posn + 1));
  }

  /** One directive, with its arguments registered as they are met. */
  method ParseDirective(f: string, start: nat, posn: nat, args: seq<ArgType>)
    returns (r: Option<Scanned>, registered: seq<ArgType>)
    requires start < |f|
    ensures r.Some? ==> r == Scan(f, start, posn) && RegisterAll(args, r.value.dir) == Some(registered)
    ensures r.None? ==> Scan(f, start, posn).None? || RegisterAll(args, Scan(f, start, posn).value.dir).None?
  {
    hide PositionAt, FieldAt, EndingAt, Register;
    registered := args;
    var p := ParsePosition(f, start + 1);
    if p == BadPosition {
      return None, args;
    }
    var first := Behind(p, start + 1);
    var cp, flags := ParseFlags(f, first);
    var w, a1 := ParseField(f, cp, posn, args);
    if w == None || a1 == None {
      return None, args;
    }
    var q, a2 := Some(Field(w.value.next, w.value.next, None, w.value.posn)), a1;
    if Peek(f, w.value.next) == '.' {
      q, a2 := ParseField(f, w.value.next + 1, w.value.posn, a1.value);
    }
    if q == None || a2 == None {
      return None, args;
    }
    var e := ParseEnding(f, q.value.next, p, q.value.posn);
    if e == None {
      return None, args;
    }
    var d := Directive(start, e.value.end, flags, cp, w.value.textEnd, w.value.arg,
      w.value.next, q.value.textEnd, q.value.arg, e.value.conversion, e.value.arg, e.value.argType);
    var a3 := a2;
    if e.value.arg.Some? {
      a3 := RegisterArg(a2.value, e.value.arg.value, e.value.argType);
    }
    if a3 == None {
      return None, args;
    }
    return Some(Scanned(d, e.value.posn)), a3.value;
  }

  /** The whole format; None for an error. */
  method Parse(f: string) returns (r: Option<Parsed>)
    ensures r == ParseFrom(f, 0, 0, [])
  {
    hide Scan, RegisterAll;
    var cp, posn, args := 0, 0, [];
    var dirs: seq<Directive> := [];
    var maxWidth: nat, maxPrecision: nat := 0, 0;
    assert ParseFrom(f, 0, 0, []).Some? ==> [] + ParseFrom(f, 0, 0, []).value.dirs == ParseFrom(f, 0, 0, []).value.dirs;
    while cp < |f|
      invariant cp <= |f|
      invariant match ParseFrom(f, cp, posn, args)
                case None => ParseFrom(f, 0, 0, []) == None
                case Some(rest) =>
                  ParseFrom(f, 0, 0, []) == Some(Parsed(dirs + rest.dirs, rest.args,
                    Max(maxWidth, rest.maxWidth), Max(maxPrecision, rest.maxPrecision)))
    {
      if f[cp] != '%' {
        cp := cp + 1;
        continue;
      }
      var s, registered := ParseDirective(f, cp, posn, args);
      if s == None {
        return None;
      }
      var d := s.value.dir;
      ghost var rest := ParseFrom(f, d.end, s.value.posn, registered);
      assert rest.Some? ==> dirs + ([d] + rest.value.dirs) == dirs + [d] + rest.value.dirs;
      dirs := dirs + [d];
      maxWidth := Max(maxWidth, d.widthEnd - d.widthStart);
      maxPrecision := Max(maxPrecision, d.precEnd - d.precStart);
      cp, posn, args := d.end, s.value.posn, registered;
    }
    assert dirs + [] == dirs;
    return Some(Parsed(dirs, args, maxWidth, maxPrecision));
  }
}
