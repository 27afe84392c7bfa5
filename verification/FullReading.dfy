/** What can be read back from a line of the full formatter. */
module FullReading {
  import opened Decimal
  import opened FileNames
  import opened Options
  import opened Padder
  import opened Pattern
  import opened PatternFormatter
  import Calendar

  /** t has part at position at. */
  predicate Has(t: string, at: nat, part: string) {
    at + |part| <= |t| && t[at..at + |part|] == part
  }

  /** The digits of t from position at to position to stand for n. */
  predicate Reads(t: string, at: nat, to: nat, n: int) {
    at <= to <= |t| && AllDigits(t[at..to]) && Value(t[at..to]) == n
  }

  lemma ReadsPart(t: string, at: nat, part: string, n: int)
    requires Has(t, at, part) && AllDigits(part) && Value(part) == n
    ensures Reads(t, at, at + |part|, n)
  {
  }

  // ----- numerals of a fixed width -----

  lemma ValueOfTwo(a: char, b: char)
    requires IsDigit(a) && IsDigit(b)
    ensures Value([a, b]) == 10 * DigitValue(a) + DigitValue(b)
  {
    assert [a, b][..1] == [a];
    assert Value([a]) == DigitValue(a) by { assert [a][..0] == ""; }
  }

  lemma ValueOfThree(a: char, b: char, c: char)
    requires IsDigit(a) && IsDigit(b) && IsDigit(c)
    ensures Value([a, b, c]) == 100 * DigitValue(a) + 10 * DigitValue(b) + DigitValue(c)
  {
    assert [a, b, c][..2] == [a, b];
    ValueOfTwo(a, b);
  }

  lemma TwoDigits(n: int)
    requires 0 <= n < 100
    ensures Numeral(Pad2(n), 2, n)
  {
    if n < 10 {
      assert Pad2(n) == ['0', DigitChar(n)];
      ValueOfTwo('0', DigitChar(n));
    } else {
      ValueOfDigits(n);
      assert |Digits(n / 10)| == 1;
    }
  }

  lemma ThreeDigits(n: nat)
    requires n < 1000
    ensures Numeral(Pad3(n), 3, n)
  {
    ValueOfThree(DigitChar(n / 100), DigitChar(n % 100 / 10), DigitChar(n % 10));
  }

  lemma FourDigits(n: nat)
    requires 1000 <= n <= 9999
    ensures Numeral(Digits(n), 4, n)
  {
    ValueOfDigits(n);
    assert |Digits(n / 10 / 10 / 10)| == 1;
    assert |Digits(n / 10 / 10)| == 2;
    assert |Digits(n / 10)| == 3;
  }

  // ----- the date -----

  predicate InRange(tm: Tm) {
    && 1000 <= tm.year + 1900 <= 9999 && 0 <= tm.mon <= 11 && 1 <= tm.mday <= 31
    && 0 <= tm.hour <= 23 && 0 <= tm.min <= 59 && 0 <= tm.sec <= 60
  }

  lemma TimeParts(m: string, d: string, h: string, i: string, s: string)
    requires |m| == 2 && |d| == 2 && |h| == 2 && |i| == 2 && |s| == 2
    ensures var t := "-" + m + "-" + d + " " + h + ":" + i + ":" + s + ".";
            && |t| == 16 && t[0] == '-' && t[1..3] == m && t[3] == '-' && t[4..6] == d && t[6] == ' ' && t[7..9] == h
            && t[9] == ':' && t[10..12] == i && t[12] == ':' && t[13..15] == s && t[15] == '.'
  {
    var a := "-" + m + "-" + d;
    var b := a + " " + h;
    var c := b + ":" + i;
    var t := c + ":" + s + ".";
    assert a[0] == '-' && a[1..3] == m && a[3] == '-' && a[4..6] == d;
    assert b[..6] == a && b[6] == ' ' && b[7..9] == h;
    assert c[..9] == b && c[9] == ':' && c[10..12] == i;
    assert t[..12] == c && t[12] == ':' && t[13..15] == s && t[15] == '.';
    assert t[..9] == c[..9] && t[..6] == b[..6];
    assert t[1..3] == a[1..3] && t[4..6] == a[4..6] && t[7..9] == b[7..9] && t[10..12] == c[10..12];
  }

  /** A date text: each field in its place, with a separator before it and a dot at the end. */
  predicate DateIs(t: string, year: int, mon: int, mday: int, hour: int, min: int, sec: int) {
    && |t| == 21
    && t[0] == '[' && Reads(t, 1, 5, year) && t[5] == '-' && Reads(t, 6, 8, mon) && t[8] == '-' && Reads(t, 9, 11, mday)
    && t[11] == ' ' && Reads(t, 12, 14, hour) && t[14] == ':' && Reads(t, 15, 17, min) && t[17] == ':'
    && Reads(t, 18, 20, sec) && t[20] == '.'
  }

  predicate Numeral(s: string, width: nat, n: int) { |s| == width && AllDigits(s) && Value(s) == n }

  lemma NumeralAt(t: string, u: string, k: nat, part: string, width: nat, n: int)
    requires |t| == 5 + |u| && t[5..] == u && k + width <= |u| && u[k..k + width] == part && Numeral(part, width, n)
    ensures Reads(t, 5 + k, 5 + k + width, n)
  {
    assert t[5 + k..5 + k + width] == t[5..][k..k + width];
  }

  lemma {:induction false} FieldsRead(
      t: string, y: string, m: string, d: string, h: string, i: string, s: string,
      year: int, mon: int, mday: int, hour: int, min: int, sec: int)
    requires t == "[" + y + ("-" + m + "-" + d + " " + h + ":" + i + ":" + s + ".")
    requires Numeral(y, 4, year) && Numeral(m, 2, mon) && Numeral(d, 2, mday)
    requires Numeral(h, 2, hour) && Numeral(i, 2, min) && Numeral(s, 2, sec)
    ensures DateIs(t, year, mon, mday, hour, min, sec)
  {
    var u := "-" + m + "-" + d + " " + h + ":" + i + ":" + s + ".";
    TimeParts(m, d, h, i, s);
    assert t[5..] == u && t[1..5] == y;
    NumeralAt(t, u, 1, m, 2, mon);
    NumeralAt(t, u, 4, d, 2, mday);
    NumeralAt(t, u, 7, h, 2, hour);
    NumeralAt(t, u, 10, i, 2, min);
    NumeralAt(t, u, 13, s, 2, sec);
    assert t[5] == u[0] && t[8] == u[3] && t[11] == u[6] && t[14] == u[9] && t[17] == u[12] && t[20] == u[15];
  }

  /** The date of a line: year, month, day, hour, minute and second, each at its place. */
  lemma DateReads(tm: Tm)
    requires InRange(tm)
    ensures DateIs(DateText(tm), tm.year + 1900, tm.mon + 1, tm.mday, tm.hour, tm.min, tm.sec)
  {
    var y, m, d := DayStrings(tm);
    var h, i, s := ClockStrings(tm);
    FieldsRead(DateText(tm), y, m, d, h, i, s, tm.year + 1900, tm.mon + 1, tm.mday, tm.hour, tm.min, tm.sec);
  }

  lemma {:induction false} DayStrings(tm: Tm) returns (y: string, m: string, d: string)
    requires InRange(tm)
    ensures y == IntText(tm.year + 1900) && m == Pad2(tm.mon + 1) && d == Pad2(tm.mday)
    ensures Numeral(y, 4, tm.year + 1900) && Numeral(m, 2, tm.mon + 1) && Numeral(d, 2, tm.mday)
  {
    FourDigits(tm.year + 1900);
    TwoDigits(tm.mon + 1);
    TwoDigits(tm.mday);
    y, m, d := IntText(tm.year + 1900), Pad2(tm.mon + 1), Pad2(tm.mday);
  }

  lemma ClockStrings(tm: Tm) returns (h: string, i: string, s: string)
    requires InRange(tm)
    ensures h == Pad2(tm.hour) && i == Pad2(tm.min) && s == Pad2(tm.sec)
    ensures Numeral(h, 2, tm.hour) && Numeral(i, 2, tm.min) && Numeral(s, 2, tm.sec)
  {
    TwoDigits(tm.hour);
    TwoDigits(tm.min);
    TwoDigits(tm.sec);
    h, i, s := Pad2(tm.hour), Pad2(tm.min), Pad2(tm.sec);
  }

  /** The date text determines the date down to the second. */
  lemma DateDetermines(a: Tm, b: Tm)
    requires InRange(a) && InRange(b) && DateText(a) == DateText(b)
    ensures a.year == b.year && a.mon == b.mon && a.mday == b.mday
    ensures a.hour == b.hour && a.min == b.min && a.sec == b.sec
  {
    DateReads(a);
    DateReads(b);
  }

  // ----- the rest of the line -----

  /** A base name has no separator, and is what stands behind the last one. */
  lemma BasenameTells(filename: string)
    ensures var b := Basename(filename);
            && |b| <= |filename| && filename[|filename| - |b|..] == b && '/' !in b
            && (|b| < |filename| ==> filename[|filename| - |b| - 1] == '/')
  {
  }

  /** The milliseconds within the second of a time that is not before the epoch. */
  lemma Millis(msg: Msg)
    requires msg.time >= 0
    ensures var n := (Calendar.TruncDiv(msg.time, 1_000_000) - 1000 * Secs(msg)) % 0x1_0000_0000;
            n == msg.time / 1_000_000 % 1000
  {
    var ms := msg.time / 1_000_000;
    assert msg.time / 1_000_000_000 == ms / 1000;
  }

  /** The pieces of what follows the date stand in t one behind the other. */
  predicate Placed(t: string, ms: string, name: string, level: string, source: string, payload: string) {
    var l := 5 + |name|;
    var s := l + |level| + 3;
    && Has(t, 0, ms) && Has(t, 3, "] ") && Has(t, 5, name) && BracketAt(t, l, level)
    && Has(t, s, source) && |t| == s + |source| + |payload| && t[s + |source|..] == payload
  }

  lemma TailPlaced(ms: string, name: string, level: string, source: string, payload: string)
    requires |ms| == 3
    ensures Placed(ms + "] " + name + "[" + level + "] " + source + payload, ms, name, level, source, payload)
  {
    var a := ms + "] " + name;
    var b := a + "[" + level + "] ";
    var t := b + source + payload;
    var l, s := |a|, |b|;
    assert Has(a, 0, ms) && Has(a, 3, "] ") && Has(a, 5, name);
    assert b[..l] == a && Has(b, l, "[") && Has(b, l + 1, level) && Has(b, s - 2, "] ");
    assert t[..s] == b && Has(t, s, source) && t[s + |source|..] == payload;
    assert t[..l] == b[..l];
    Within(t, a, 0, ms);
    Within(t, a, 3, "] ");
    Within(t, a, 5, name);
    Within(t, b, l, "[");
    Within(t, b, l + 1, level);
    Within(t, b, s - 2, "] ");
  }

  lemma Within(t: string, pre: string, at: nat, part: string)
    requires Has(pre, at, part) && |pre| <= |t| && t[..|pre|] == pre
    ensures Has(t, at, part)
  {
    assert t[at..at + |part|] == pre[at..at + |part|];
  }

  lemma Inside(t: string, at: nat, whole: string, k: nat, part: string)
    requires Has(t, at, whole) && Has(whole, k, part)
    ensures Has(t, at + k, part)
  {
    forall j | 0 <= j < |part| ensures t[at + k + j] == part[j] {
      assert t[at..at + |whole|][k + j] == whole[k + j] && whole[k..k + |part|][j] == part[j];
    }
  }

  /** Something in brackets, and a space behind it. */
  predicate BracketAt(t: string, at: nat, inside: string) {
    Has(t, at, "[") && Has(t, at + 1, inside) && Has(t, at + 1 + |inside|, "] ")
  }

  lemma Bracketed(t: string, at: nat, inside: string)
    requires Has(t, at, "[" + inside + "] ")
    ensures BracketAt(t, at, inside)
  {
    var whole := "[" + inside + "] ";
    Inside(t, at, whole, 0, "[");
    Inside(t, at, whole, 1, inside);
    Inside(t, at, whole, 1 + |inside|, "] ");
  }

  /** What the rest of a line tells: the milliseconds, the logger's name, empty if it has none,
      the level, the base name and number of the source line, and the payload. */
  datatype Rest = Rest(millis: nat, logger: string, level: string, base: Option<string>, line: nat, payload: string)

  function RestOf(msg: Msg): Rest
    requires msg.time >= 0
  {
    Rest(msg.time / 1_000_000 % 1000, msg.loggerName, msg.level,
         if msg.source.None? then None else Some(Basename(msg.source.value.filename)),
         if msg.source.None? then 0 else msg.source.value.line, msg.payload)
  }

  /** The base name, a colon and the line number, in brackets, up to position n. */
  predicate SourceAt(t: string, s: nat, n: nat, base: string, line: nat) {
    && s + |base| + 4 <= n
    && Has(t, s, "[") && Has(t, s + 1, base) && Has(t, s + 1 + |base|, ":") && Reads(t, s + 2 + |base|, n - 2, line)
    && Has(t, n - 2, "] ")
  }

  function LevelAt(r: Rest): nat { 5 + if r.logger == "" then 0 else |r.logger| + 3 }

  /** The milliseconds, then the logger's name in brackets if it has one, then the level in
      brackets. */
  predicate HeadIs(t: string, r: Rest) {
    && Reads(t, 0, 3, r.millis) && Has(t, 3, "] ")
    && (r.logger != "" ==> BracketAt(t, 5, r.logger))
    && BracketAt(t, LevelAt(r), r.level)
  }

  /** Right behind the level the source in brackets, if there is one, and then the payload, to
      the end. */
  predicate EndIs(t: string, r: Rest) {
    var source, payload := LevelAt(r) + |r.level| + 3, |t| - |r.payload|;
    && source <= payload && t[payload..] == r.payload
    && (if r.base.Some? then SourceAt(t, source, payload, r.base.value, r.line) else payload == source)
  }

  function NamePart(r: Rest): string { if r.logger == "" then "" else "[" + r.logger + "] " }

  function SourcePart(r: Rest): string { if r.base.None? then "" else "[" + r.base.value + ":" + Digits(r.line) + "] " }

  /** What follows the date reads as it should, for every time from the epoch on. */
  lemma TailReads(msg: Msg)
    requires msg.time >= 0
    ensures HeadIs(Tail(msg), RestOf(msg)) && EndIs(Tail(msg), RestOf(msg))
  {
    var r := RestOf(msg);
    Millis(msg);
    ThreeDigits(r.millis);
    TailPlaced(Pad3(r.millis), NamePart(r), r.level, SourcePart(r), r.payload);
    HeadReads(Tail(msg), r, Pad3(r.millis), NamePart(r), SourcePart(r));
    EndReads(Tail(msg), r, Pad3(r.millis), NamePart(r), SourcePart(r));
  }

  lemma HeadReads(t: string, r: Rest, ms: string, name: string, source: string)
    requires Numeral(ms, 3, r.millis) && name == NamePart(r) && Placed(t, ms, name, r.level, source, r.payload)
    ensures HeadIs(t, r)
  {
    NameReads(t, r);
    ReadsPart(t, 0, ms, r.millis);
  }

  lemma EndReads(t: string, r: Rest, ms: string, name: string, source: string)
    requires name == NamePart(r) && source == SourcePart(r) && Placed(t, ms, name, r.level, source, r.payload)
    ensures EndIs(t, r)
  {
    NameReads(t, r);
    SourceReads(t, LevelAt(r) + |r.level| + 3, r);
  }

  lemma NameReads(t: string, r: Rest)
    requires Has(t, 5, NamePart(r))
    ensures r.logger != "" ==> BracketAt(t, 5, r.logger)
    ensures 5 + |NamePart(r)| == LevelAt(r)
  {
    if r.logger != "" { Bracketed(t, 5, r.logger); }
  }

  lemma SourceReads(t: string, s: nat, r: Rest)
    requires Has(t, s, SourcePart(r))
    ensures if r.base.Some? then SourceAt(t, s, s + |SourcePart(r)|, r.base.value, r.line) else |SourcePart(r)| == 0
  {
    if r.base.Some? {
      var b, d := r.base.value, Digits(r.line);
      SourceParts(t, s, b, d);
      ValueOfDigits(r.line);
      ReadsPart(t, s + 2 + |b|, d, r.line);
    }
  }

  lemma SourceParts(t: string, s: nat, b: string, d: string)
    requires Has(t, s, "[" + b + ":" + d + "] ")
    ensures Has(t, s, "[") && Has(t, s + 1, b) && Has(t, s + 1 + |b|, ":") && Has(t, s + 2 + |b|, d)
    ensures Has(t, s + 2 + |b| + |d|, "] ")
  {
    var whole := "[" + b + ":" + d + "] ";
    Inside(t, s, whole, 0, "[");
    Inside(t, s, whole, 1, b);
    Inside(t, s, whole, 1 + |b|, ":");
    Inside(t, s, whole, 2 + |b|, d);
    Inside(t, s, whole, 2 + |b| + |d|, "] ");
  }

  // ----- whole lines -----

  /** Formatters run in the order of the pattern. */
  lemma {:induction false} WritesInOrder(
      world: World, fs: seq<Formatter>, gs: seq<Formatter>, msg: Msg, tm: Tm, buffer: string)
    ensures AllText(world, fs + gs, msg, tm, buffer) == AllText(world, gs, msg, tm, AllText(world, fs, msg, tm, buffer))
    decreases |fs|
  {
    if fs == [] {
      assert fs + gs == gs;
    } else {
      assert (fs + gs)[1..] == fs[1..] + gs;
      WritesInOrder(world, fs[1..], gs, msg, tm, Written(world, fs[0], msg, tm, buffer));
    }
  }

  lemma OneFormatter(world: World, f: Formatter, msg: Msg, tm: Tm, buffer: string)
    ensures AllText(world, [f], msg, tm, buffer) == Written(world, f, msg, tm, buffer)
  {
    assert [f][1..] == [];
  }

  /** What a new formatter makes of its first message. */
  function FirstLine(world: World, customs: set<char>, eol: string, pattern: string, msg: Msg, dest: string): string {
    Step(world, customs, eol, Fresh(customs, pattern), Op.Format(msg, dest)).1
  }

  /** A pattern without flags is its own line. */
  lemma PlainLine(world: World, customs: set<char>, eol: string, pattern: string, msg: Msg, dest: string)
    requires '%' !in pattern
    ensures FirstLine(world, customs, eol, pattern, msg, dest) == dest + pattern + eol
  {
    Collects(customs, pattern, "", "");
    assert pattern + "" == pattern && "" + pattern == pattern;
    if pattern == "" {
      assert Compile(customs, pattern) == [] && dest + pattern == dest;
    } else {
      assert Compile(customs, pattern) == [Text(pattern)];
      var m := Fresh(customs, pattern);
      OneFormatter(world, Text(pattern), msg, Refresh(world, m, msg).cachedTm, dest);
    }
  }

  /** A doubled '%' writes one. */
  lemma PercentLine(world: World, customs: set<char>, eol: string, msg: Msg, dest: string)
    requires '%' !in customs
    ensures FirstLine(world, customs, eol, "%%", msg, dest) == dest + "%" + eol
  {
    ReadsOne(customs, Percent, "");
    assert "%%" + "" == "%%";
    assert Compile(customs, "%%") == [Percent] by { assert [Percent] + CompileFrom(customs, "", "") == [Percent]; }
    OneFormatter(world, Percent, msg, Refresh(world, Fresh(customs, "%%"), msg).cachedTm, dest);
  }

  /** The default line: the date of the message's second and what follows it, behind what was
      there, and the end of line. Their texts are those of DateReads and TailReads. */
  lemma DefaultLine(world: World, customs: set<char>, eol: string, msg: Msg, dest: string)
    requires '+' !in customs && Secs(msg) != 0
    ensures FirstLine(world, customs, eol, "%+", msg, dest)
         == dest + (DateText(world.calendar(Secs(msg))) + Tail(msg)) + eol
  {
    FullPattern(customs);
    var full := Full(NO_PADDING, 0, "");
    assert ReadsDate([full][0]) && HasDated([full]);
    FullIsNew(msg, world.calendar(Secs(msg)));
    OneFormatter(world, full, msg, world.calendar(Secs(msg)), dest);
  }

  lemma FullIsNew(msg: Msg, tm: Tm)
    ensures Renewed(Full(NO_PADDING, 0, ""), msg, tm).datetime == DateText(tm)
  {
  }
}
