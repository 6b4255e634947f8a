/** What a parsed format means for the rest of vasnprintf: the split of the format, the
    argument types, and the formats rebuilt for snprintf (vasnprintf.c). */
module FormatFacts {
  import opened Options
  import opened PrintfParse

  // The directives and the literals between them make up the format.

  ghost predicate Literal(s: string) { '%' !in s }

  /** From i on, the format is literals and the given directives in turn. */
  ghost predicate Splits(f: string, i: nat, dirs: seq<Directive>)
    decreases |dirs|
  {
    if dirs == [] then i <= |f| && Literal(f[i..])
    else
      var d := dirs[0];
      i <= d.start < d.end <= |f| && Literal(f[i..d.start]) && f[d.start] == '%' && Splits(f, d.end, dirs[1..])
  }

  /** The literals and the texts of the directives put together again. */
  function Join(f: string, i: nat, dirs: seq<Directive>): string
    requires Splits(f, i, dirs)
    decreases |dirs|
  {
    if dirs == [] then f[i..]
    else f[i..dirs[0].start] + f[dirs[0].start..dirs[0].end] + Join(f, dirs[0].end, dirs[1..])
  }

  lemma {:induction false} FormatSplits(f: string, i: nat, posn: nat, args: seq<ArgType>)
    requires i <= |f| && ParseFrom(f, i, posn, args).Some?
    ensures Splits(f, i, ParseFrom(f, i, posn, args).value.dirs)
    decreases |f| - i
  {
    hide Scan, RegisterAll;
    if i < |f| {
      if f[i] != '%' {
        FormatSplits(f, i + 1, posn, args);
        SplitsEarlier(f, i, ParseFrom(f, i, posn, args).value.dirs);
      } else {
        var s := Scan(f, i, posn).value;
        FormatSplits(f, s.dir.end, s.posn, RegisterAll(args, s.dir).value);
      }
    }
  }

  lemma SplitsEarlier(f: string, i: nat, dirs: seq<Directive>)
    requires i < |f| && f[i] != '%' && Splits(f, i + 1, dirs)
    ensures Splits(f, i, dirs)
  {
    var e := if dirs == [] then |f| else dirs[0].start;
    assert f[i..e] == [f[i]] + f[i + 1..e];
  }

  /** On success the format is split into literals without % and directives, and these put
      together are the format. */
  lemma {:induction false} JoinedIsFormat(f: string, i: nat, dirs: seq<Directive>)
    requires Splits(f, i, dirs)
    ensures i <= |f| && Join(f, i, dirs) == f[i..]
    decreases |dirs|
  {
    if dirs != [] {
      JoinedIsFormat(f, dirs[0].end, dirs[1..]);
      ThreeSlices(f, i, dirs[0].start, dirs[0].end);
    }
  }

  lemma ThreeSlices(f: string, i: nat, j: nat, k: nat)
    requires i <= j <= k <= |f|
    ensures f[i..j] + f[j..k] + f[k..] == f[i..]
  {}

  // The registered arguments.

  /** Types that are known stay. */
  ghost predicate Kept(args: seq<ArgType>, later: seq<ArgType>) {
    |args| <= |later| && forall j :: 0 <= j < |args| && args[j] != NoType ==> later[j] == args[j]
  }

  ghost predicate Has(args: seq<ArgType>, n: Option<nat>, t: ArgType) {
    n.Some? ==> n.value < |args| && args[n.value] == t && t != NoType
  }

  /** All arguments of a directive are registered with their types. */
  ghost predicate Registered(d: Directive, args: seq<ArgType>) {
    Has(args, d.widthArg, Int) && Has(args, d.precArg, Int) && Has(args, d.argIndex, d.argType)
  }

  lemma RegisteredStays(d: Directive, args: seq<ArgType>, later: seq<ArgType>)
    requires Registered(d, args) && Kept(args, later)
    ensures Registered(d, later)
  {}

  lemma RegisterAllRegisters(args: seq<ArgType>, d: Directive)
    requires RegisterAll(args, d).Some? && (d.argIndex.Some? ==> d.argType != NoType)
    ensures Kept(args, RegisterAll(args, d).value) && Registered(d, RegisterAll(args, d).value)
  {}

  lemma ScanTypes(f: string, start: nat, posn: nat)
    requires start < |f| && Scan(f, start, posn).Some?
    ensures var d := Scan(f, start, posn).value.dir; d.argIndex.Some? <==> d.argType != NoType
  {
    hide PositionAt, FieldAt, PrecisionAt;
  }

  /** Every argument that some directive uses is below the count and has the type that the
      directive needs: one type for each, however often and in whatever order it is used. */
  lemma {:induction false} ArgumentsRegistered(f: string, i: nat, posn: nat, args: seq<ArgType>)
    requires i <= |f| && ParseFrom(f, i, posn, args).Some?
    ensures var r := ParseFrom(f, i, posn, args).value;
      Kept(args, r.args) && forall d :: d in r.dirs ==> Registered(d, r.args)
    decreases |f| - i
  {
    hide Scan, RegisterAll, Registered;
    if i < |f| {
      if f[i] != '%' {
        ArgumentsRegistered(f, i + 1, posn, args);
      } else {
        var s := Scan(f, i, posn).value;
        var a1 := RegisterAll(args, s.dir).value;
        ScanTypes(f, i, posn);
        RegisterAllRegisters(args, s.dir);
        ArgumentsRegistered(f, s.dir.end, s.posn, a1);
        RegisteredStays(s.dir, a1, ParseFrom(f, i, posn, args).value.args);
      }
    }
  }

  /** The widest width and the longest precision are bounds that are reached. */
  lemma {:induction false} MaximaReached(f: string, i: nat, posn: nat, args: seq<ArgType>)
    requires i <= |f| && ParseFrom(f, i, posn, args).Some?
    ensures var r := ParseFrom(f, i, posn, args).value;
      && (forall d :: d in r.dirs ==> d.widthEnd - d.widthStart <= r.maxWidth && d.precEnd - d.precStart <= r.maxPrecision)
      && (r.maxWidth == 0 || exists d :: d in r.dirs && d.widthEnd - d.widthStart == r.maxWidth)
      && (r.maxPrecision == 0 || exists d :: d in r.dirs && d.precEnd - d.precStart == r.maxPrecision)
    decreases |f| - i
  {
    hide Scan, RegisterAll;
    if i < |f| {
      if f[i] != '%' {
        MaximaReached(f, i + 1, posn, args);
      } else {
        var s := Scan(f, i, posn).value;
        MaximaReached(f, s.dir.end, s.posn, RegisterAll(args, s.dir).value);
        var r, rest := ParseFrom(f, i, posn, args).value, ParseFrom(f, s.dir.end, s.posn, RegisterAll(args, s.dir).value).value;
        assert r.dirs == [s.dir] + rest.dirs && s.dir in r.dirs;
        assert forall d :: d in r.dirs ==> d == s.dir || d in rest.dirs;
        assert forall d :: d in rest.dirs ==> d in r.dirs;
      }
    }
  }

  // Formats without positions.

  function UseOf(n: Option<nat>): seq<nat> { if n.Some? then [n.value] else [] }

  /** The arguments that directives use, in the order in which they are met. */
  function Uses(dirs: seq<Directive>): seq<nat> {
    if dirs == [] then []
    else UseOf(dirs[0].widthArg) + UseOf(dirs[0].precArg) + UseOf(dirs[0].argIndex) + Uses(dirs[1..])
  }

  /** None of the arguments of the directive at start has a position. */
  ghost predicate Sequential(f: string, d: Directive)
    requires d.start < |f| && d.widthStart <= |f| && d.precStart <= |f|
  {
    && PositionAt(f, d.start + 1) == NoPosition
    && (Peek(f, d.widthStart) == '*' ==> PositionAt(f, d.widthStart + 1) == NoPosition)
    && (Peek(f, d.precStart) == '.' && Peek(f, d.precStart + 1) == '*' ==> PositionAt(f, d.precStart + 2) == NoPosition)
  }

  ghost predicate Full(args: seq<ArgType>, n: nat) { |args| == n && NoType !in args }

  lemma NextRegistered(args: seq<ArgType>, t: ArgType)
    requires Full(args, |args|) && t != NoType
    ensures Register(args, |args|, t) == Some(args + [t]) && Full(args + [t], |args| + 1)
  {
    assert Untyped(1) == [NoType];
    assert (args + Untyped(1))[|args| := t] == args + [t];
  }

  /** The numbers from a on, below b. */
  function Range(a: nat, b: nat): seq<nat>
    requires a <= b
  {
    seq(b - a, j requires 0 <= j => a + j)
  }

  lemma FieldSequential(f: string, i: nat, posn: nat, args: seq<ArgType>)
    requires i <= |f| && FieldAt(f, i, posn).Some? && Full(args, posn)
    requires Peek(f, i) == '*' ==> PositionAt(f, i + 1) == NoPosition
    ensures var w := FieldAt(f, i, posn).value;
      && posn <= w.posn && UseOf(w.arg) == Range(posn, w.posn)
      && RegisterIf(args, w.arg, Int).Some? && Full(RegisterIf(args, w.arg, Int).value, w.posn)
  {
    NextRegistered(args, Int);
  }

  lemma EndingSequential(f: string, i: nat, posn: nat, args: seq<ArgType>)
    requires i <= |f| && EndingAt(f, i, NoPosition, posn).Some? && Full(args, posn)
    ensures var e := EndingAt(f, i, NoPosition, posn).value;
      && posn <= e.posn && UseOf(e.arg) == Range(posn, e.posn)
      && RegisterIf(args, e.arg, e.argType).Some? && Full(RegisterIf(args, e.arg, e.argType).value, e.posn)
  {
    var e := EndingAt(f, i, NoPosition, posn).value;
    if e.arg.Some? { NextRegistered(args, e.argType); }
  }

  lemma RangesJoin(a: nat, b: nat, c: nat)
    requires a <= b <= c
    ensures Range(a, b) + Range(b, c) == Range(a, c)
  {}

  lemma ScanSequential(f: string, start: nat, posn: nat, args: seq<ArgType>)
    requires start < |f| && Scan(f, start, posn).Some? && Full(args, posn)
    requires var d := Scan(f, start, posn).value.dir; d.widthStart <= |f| && d.precStart <= |f| && Sequential(f, d)
    ensures var s := Scan(f, start, posn).value;
      && posn <= s.posn
      && UseOf(s.dir.widthArg) + UseOf(s.dir.precArg) + UseOf(s.dir.argIndex) == Range(posn, s.posn)
      && RegisterAll(args, s.dir).Some? && Full(RegisterAll(args, s.dir).value, s.posn)
  {
    hide PositionAt, FieldAt, EndingAt, Full, UseOf, Range;
    var i2 := FlagsEnd(f, start + 1);
    var w := FieldAt(f, i2, posn).value;
    FieldSequential(f, i2, posn, args);
    var a1 := RegisterIf(args, w.arg, Int).value;
    var q := PrecisionAt(f, w.next, w.posn).value;
    PrecisionSequential(f, w.next, w.posn, a1);
    var a2 := RegisterIf(a1, q.arg, Int).value;
    EndingSequential(f, q.next, q.posn, a2);
    var s := Scan(f, start, posn).value;
    RangesJoin(posn, w.posn, q.posn);
    RangesJoin(posn, q.posn, s.posn);
  }

  lemma PrecisionSequential(f: string, i: nat, posn: nat, args: seq<ArgType>)
    requires i <= |f| && PrecisionAt(f, i, posn).Some? && Full(args, posn)
    requires Peek(f, i) == '.' && Peek(f, i + 1) == '*' ==> PositionAt(f, i + 2) == NoPosition
    ensures var q := PrecisionAt(f, i, posn).value;
      && posn <= q.posn && UseOf(q.arg) == Range(posn, q.posn)
      && RegisterIf(args, q.arg, Int).Some? && Full(RegisterIf(args, q.arg, Int).value, q.posn)
  {
    hide PositionAt, FieldAt, Full;
    if Peek(f, i) == '.' { FieldSequential(f, i + 1, posn, args); }
  }

  /** A format without positions uses the arguments 0, 1, 2 and so on in the order of its
      directives, and registers a type for each of them, without a gap. */
  lemma {:induction false} SequentialFormat(f: string, i: nat, posn: nat, args: seq<ArgType>)
    requires i <= |f| && ParseFrom(f, i, posn, args).Some? && Full(args, posn)
    requires forall d :: d in ParseFrom(f, i, posn, args).value.dirs ==>
      d.start < |f| && d.widthStart <= |f| && d.precStart <= |f| && Sequential(f, d)
    ensures var r := ParseFrom(f, i, posn, args).value;
      posn <= |r.args| && Full(r.args, |r.args|) && Uses(r.dirs) == Range(posn, |r.args|)
    decreases |f| - i
  {
    hide Scan, RegisterAll, Sequential, Full, Range;
    if i == |f| {
      RangeEmpty(posn);
      FullLength(args, posn);
    } else if f[i] != '%' {
      SequentialFormat(f, i + 1, posn, args);
    } else {
      var r := ParseFrom(f, i, posn, args).value;
      var s := Scan(f, i, posn).value;
      assert s.dir == r.dirs[0] && s.dir in r.dirs;
      var rest := ParseFrom(f, s.dir.end, s.posn, RegisterAll(args, s.dir).value).value;
      assert forall d :: d in rest.dirs ==> d in r.dirs;
      ScanSequential(f, i, posn, args);
      SequentialFormat(f, s.dir.end, s.posn, RegisterAll(args, s.dir).value);
      RangesJoin(posn, s.posn, |r.args|);
      assert r.dirs[1..] == rest.dirs;
    }
  }

  lemma RangeEmpty(n: nat)
    ensures Range(n, n) == []
  {}

  lemma FullLength(args: seq<ArgType>, n: nat)
    requires Full(args, n)
    ensures |args| == n
  {}

  // The format rebuilt for snprintf from a directive.

  function FlagText(flags: set<char>, zero: bool): string {
    (if '\'' in flags then "'" else "") + (if '-' in flags then "-" else "") + (if '+' in flags then "+" else "")
    + (if ' ' in flags then " " else "") + (if '#' in flags then "#" else "")
    + (if zero && '0' in flags then "0" else "")
  }

  function SizeLetters(t: ArgType): string {
    match t
    case LongLong | ULongLong => "ll"
    case Long | ULong | WideChar | WideStr => "l"
    case LongDouble => "L"
    case _ => ""
  }

  predicate InFormat(f: string, d: Directive) {
    d.widthStart <= d.widthEnd <= |f| && d.precStart <= d.precEnd <= |f|
  }

  /** The directive without positions. padOurselves and precOurselves say that the width, or
      the precision, is not left to snprintf. */
  function SubFormat(f: string, d: Directive, padOurselves: bool, precOurselves: bool): string
    requires InFormat(f, d)
  {
    "%" + FlagText(d.flags, !padOurselves) + (if padOurselves then "" else f[d.widthStart..d.widthEnd])
    + (if precOurselves then "" else f[d.precStart..d.precEnd]) + SizeLetters(d.argType) + [d.conversion]
  }

  method CopyText(buf: array<char>, fbp: nat, text: string) returns (next: nat)
    requires fbp + |text| <= buf.Length
    modifies buf
    ensures next == fbp + |text| && buf[..next] == old(buf[..fbp]) + text
  {
    next := fbp;
    for i := 0 to |text|
      invariant next == fbp + i && buf[..next] == old(buf[..fbp]) + text[..i]
    {
      buf[next] := text[i];
      next := next + 1;
    }
    assert text[..|text|] == text;
  }

  /** Append c if b holds; the buffer holds base and then the text so far. */
  method PutIf(buf: array<char>, fbp: nat, b: bool, c: char, ghost base: string, ghost text: string) returns (next: nat)
    requires fbp < buf.Length && buf[..fbp] == base + text
    modifies buf
    ensures next == fbp + (if b then 1 else 0) && buf[..next] == base + (text + (if b then [c] else ""))
  {
    next := fbp;
    if b {
      buf[fbp] := c;
      next := fbp + 1;
      assert buf[..next] == base + text + [c];
    }
  }

  method PutFlags(buf: array<char>, start: nat, flags: set<char>, zero: bool) returns (fbp: nat)
    requires start + 6 <= buf.Length
    modifies buf
    ensures fbp == start + |FlagText(flags, zero)| && buf[..fbp] == old(buf[..start]) + FlagText(flags, zero)
  {
    ghost var base := buf[..start];
    assert base + "" == base;
    ghost var t0 := if '\'' in flags then "'" else "";
    ghost var t1 := t0 + (if '-' in flags then "-" else "");
    ghost var t2 := t1 + (if '+' in flags then "+" else "");
    ghost var t3 := t2 + (if ' ' in flags then " " else "");
    ghost var t4 := t3 + (if '#' in flags then "#" else "");
    assert |t0| <= 1 && |t1| <= 2 && |t2| <= 3 && |t3| <= 4 && |t4| <= 5;
    fbp := PutIf(buf, start, '\'' in flags, '\'', base, "");
    assert "" + t0 == t0;
    fbp := PutIf(buf, fbp, '-' in flags, '-', base, t0);
    fbp := PutIf(buf, fbp, '+' in flags, '+', base, t1);
    fbp := PutIf(buf, fbp, ' ' in flags, ' ', base, t2);
    fbp := PutIf(buf, fbp, '#' in flags, '#', base, t3);
    fbp := PutIf(buf, fbp, zero && '0' in flags, '0', base, t4);
  }

  lemma FewFlags(flags: set<char>, zero: bool)
    ensures |FlagText(flags, zero)| <= 6
  {}

  /** Build the sub-format in the buffer, with what ends it: %n if countWritten, and the NUL.
      The buffer is as long as the code makes it, from the maxima over all directives. */
  method BuildSubFormat(buf: array<char>, f: string, d: Directive, maxWidth: nat, maxPrecision: nat,
                        padOurselves: bool, precOurselves: bool, countWritten: bool)
    requires InFormat(f, d) && d.widthEnd - d.widthStart <= maxWidth && d.precEnd - d.precStart <= maxPrecision
    requires buf.Length == 7 + maxWidth + maxPrecision + 6
    modifies buf
    ensures var text := SubFormat(f, d, padOurselves, precOurselves) + (if countWritten then "%n" else "") + ['\0'];
      |text| <= buf.Length && buf[..|text|] == text
  {
    hide FlagText;
    buf[0] := '%';
    assert buf[..1] == "%";
    FewFlags(d.flags, !padOurselves);
    var fbp := PutFlags(buf, 1, d.flags, !padOurselves);
    var width := if padOurselves then "" else f[d.widthStart..d.widthEnd];
    fbp := CopyText(buf, fbp, width);
    var precision := if precOurselves then "" else f[d.precStart..d.precEnd];
    fbp := CopyText(buf, fbp, precision);
    var letters := SizeLetters(d.argType);
    assert |letters| <= 2 && fbp <= 7 + maxWidth + maxPrecision;
    hide SizeLetters;
    fbp := CopyText(buf, fbp, letters);
    fbp := CopyText(buf, fbp, [d.conversion]);
    assert buf[..fbp] == SubFormat(f, d, padOurselves, precOurselves);
    hide SubFormat;
    fbp := CopyText(buf, fbp, if countWritten then "%n" else "");
    fbp := CopyText(buf, fbp, ['\0']);
  }

  /** The room is just enough: all flags, the widest width, the longest precision, ll and %n. */
  lemma RoomIsReached(f: string, d: Directive)
    requires InFormat(f, d) && d.flags == {'\'', '-', '+', ' ', '#', '0'} && d.argType == LongLong
    ensures |SubFormat(f, d, false, false) + "%n" + ['\0']|
      == 7 + (d.widthEnd - d.widthStart) + (d.precEnd - d.precStart) + 6
  {}
}
