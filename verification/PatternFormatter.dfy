/** The pattern formatter: its compiled formatters, the cached broken-down date and the cached date
    text of every full formatter, against a formatter that computes the date for each message. */
module PatternFormatter {
  import opened Decimal
  import opened FileNames
  import opened Options
  import opened Padder
  import opened Pattern
  import opened Sequences
  import opened Sizes
  import Calendar

  datatype Tm = Tm(sec: int, min: int, hour: int, mday: int, mon: int, year: int, wday: int, yday: int)

  const ZERO_TM := Tm(0, 0, 0, 0, 0, 0, 0, 0)

  datatype Source = Source(filename: string, line: nat)

  /** A message; its time is in nanoseconds since the epoch. */
  datatype Msg = Msg(time: int, loggerName: string, level: string, source: Option<Source>, payload: string)

  /** The outside: the time conversion, and what the formatters other than '+' make of a buffer.
      They mostly append to it, but a wrongly announced field can be cut into what is there. */
  datatype World = World(
    calendar: int -> Tm,
    dated: (char, Padding, Msg, Tm, string) -> string,
    plain: (char, Padding, Msg, string) -> string,
    readsDate: char -> bool, // which custom flags read the date
    customDated: (char, Padding, Msg, Tm, string) -> string,
    customPlain: (char, Padding, Msg, string) -> string)

  // ----- the text of a full formatter -----

  function Secs(msg: Msg): int { Calendar.TruncDiv(msg.time, 1_000_000_000) }

  function IntText(n: int): string { if n < 0 then "-" + Digits(-n) else Digits(n) }

  function Pad2(n: int): string { if 0 <= n < 10 then "0" + Digits(n) else IntText(n) }

  function Pad3(n: nat): string {
    if n < 1000 then [DigitChar(n / 100), DigitChar(n % 100 / 10), DigitChar(n % 10)] else Digits(n)
  }

  function DateText(tm: Tm): (s: string)
    ensures |s| > 0
  {
    "[" + IntText(tm.year + 1900) + MonthToSecond(tm)
  }

  function MonthToSecond(tm: Tm): string {
    "-" + Pad2(tm.mon + 1) + "-" + Pad2(tm.mday) + " " + Pad2(tm.hour) + ":" + Pad2(tm.min) + ":" + Pad2(tm.sec) + "."
  }

  function Basename(filename: string): string { filename[RFind(filename, '/') + 1..] }

  /** What follows the date: milliseconds, logger, level, source and payload. */
  function Tail(msg: Msg): string {
    Pad3((Calendar.TruncDiv(msg.time, 1_000_000) - 1000 * Secs(msg)) % 0x1_0000_0000) + "] "
    + (if msg.loggerName == "" then "" else "[" + msg.loggerName + "] ")
    + "[" + msg.level + "] "
    + (if msg.source.None? then ""
       else "[" + Basename(msg.source.value.filename) + ":" + Digits(msg.source.value.line) + "] ")
    + msg.payload
  }

  // ----- formatting with caches -----

  /** A full formatter renews its date text when the second is another one or there is none yet. */
  function Renewed(f: Formatter, msg: Msg, tm: Tm): Formatter {
    if f.Full? then
      Full(f.pad, Secs(msg), if f.stamp != Secs(msg) || f.datetime == "" then DateText(tm) else f.datetime)
    else f
  }

  /** The buffer after one formatter. */
  function Written(world: World, f: Formatter, msg: Msg, tm: Tm, buffer: string): string {
    match f
    case Text(chars) => buffer + chars
    case Percent => buffer + "%"
    case Flag(flag, pad) =>
      if IsDated(flag) then world.dated(flag, pad, msg, tm, buffer) else world.plain(flag, pad, msg, buffer)
    case Custom(flag, pad) =>
      if world.readsDate(flag) then world.customDated(flag, pad, msg, tm, buffer)
      else world.customPlain(flag, pad, msg, buffer)
    case Full(_, _, _) => buffer + (Renewed(f, msg, tm).datetime + Tail(msg))
  }

  function Updated(fs: seq<Formatter>, msg: Msg, tm: Tm): (r: seq<Formatter>)
    ensures |r| == |fs| && forall i :: 0 <= i < |fs| ==> r[i] == Renewed(fs[i], msg, tm)
  {
    seq(|fs|, i requires 0 <= i < |fs| => Renewed(fs[i], msg, tm))
  }

  function AllText(world: World, fs: seq<Formatter>, msg: Msg, tm: Tm, buffer: string): string
    decreases |fs|
  {
    if fs == [] then buffer else AllText(world, fs[1..], msg, tm, Written(world, fs[0], msg, tm, buffer))
  }

  datatype Memory = Memory(formatters: seq<Formatter>, needLocaltime: bool, lastLogSecs: int, cachedTm: Tm)

  function ReadsDate(f: Formatter): bool { f.Full? || (f.Flag? && IsDated(f.flag)) }

  predicate HasDated(fs: seq<Formatter>) { exists i :: 0 <= i < |fs| && ReadsDate(fs[i]) }

  predicate HasDatedCustom(world: World, fs: seq<Formatter>) {
    exists i :: 0 <= i < |fs| && fs[i].Custom? && world.readsDate(fs[i].flag)
  }

  /** dest is what the buffer holds before. */
  datatype Op = SetPattern(pattern: string) | NeedLocaltime(need: bool) | Format(msg: Msg, dest: string)

  /** The date a message is formatted with, and its second. */
  function Refresh(world: World, m: Memory, msg: Msg): Memory {
    if m.needLocaltime && Secs(msg) != m.lastLogSecs
    then m.(cachedTm := world.calendar(Secs(msg)), lastLogSecs := Secs(msg)) else m
  }

  function Step(world: World, customs: set<char>, eol: string, m: Memory, op: Op): (Memory, string) {
    match op
    case SetPattern(p) =>
      (m.(formatters := Compile(customs, p), needLocaltime := HasDated(Compile(customs, p))), "")
    case NeedLocaltime(need) => (m.(needLocaltime := need), "")
    case Format(msg, dest) =>
      var n := Refresh(world, m, msg);
      (n.(formatters := Updated(m.formatters, msg, n.cachedTm)),
       AllText(world, m.formatters, msg, n.cachedTm, dest) + eol)
  }

  function Outputs(world: World, customs: set<char>, eol: string, m: Memory, ops: seq<Op>): seq<string>
    decreases |ops|
  {
    if ops == [] then []
    else
      var (n, out) := Step(world, customs, eol, m, ops[0]);
      [out] + Outputs(world, customs, eol, n, ops[1..])
  }

  // ----- formatting without caches -----

  function PlainOne(world: World, f: Formatter, msg: Msg, tm: Tm, buffer: string): string {
    if f.Full? then buffer + (DateText(tm) + Tail(msg)) else Written(world, f, msg, tm, buffer)
  }

  function PlainText(world: World, fs: seq<Formatter>, msg: Msg, tm: Tm, buffer: string): string
    decreases |fs|
  {
    if fs == [] then buffer else PlainText(world, fs[1..], msg, tm, PlainOne(world, fs[0], msg, tm, buffer))
  }

  /** Merging adjacent texts changes nothing that is written. */
  lemma {:induction false} MergedReadsSame(world: World, fs: seq<Formatter>, msg: Msg, tm: Tm, buffer: string)
    ensures PlainText(world, Merged(fs), msg, tm, buffer) == PlainText(world, fs, msg, tm, buffer)
    decreases |fs|
  {
    if fs != [] {
      var rest := Merged(fs[1..]);
      MergedReadsSame(world, fs[1..], msg, tm, PlainOne(world, fs[0], msg, tm, buffer));
      if fs[0].Text? && rest != [] && rest[0].Text? {
        assert Merged(fs)[1..] == rest[1..];
        Regroup(buffer, fs[0].chars, rest[0].chars);
      } else {
        assert Merged(fs)[1..] == rest;
      }
    }
  }

  /** No caches: only the pattern, the flag, and whether any message set the date yet. */
  datatype Ref = Ref(fs: seq<Formatter>, need: bool, dated: bool)

  /** Before any message set the date, it is the zeroed one the formatter was built with. */
  function Date(world: World, dated: bool, secs: int): Tm {
    if dated then world.calendar(secs) else ZERO_TM
  }

  function RefStep(world: World, customs: set<char>, eol: string, r: Ref, op: Op): (Ref, string) {
    match op
    case SetPattern(p) => (r.(fs := Compile(customs, p), need := HasDated(Compile(customs, p))), "")
    case NeedLocaltime(need) => (r.(need := need), "")
    case Format(msg, dest) =>
      var dated := r.dated || (r.need && Secs(msg) != 0);
      (r.(dated := dated), PlainText(world, r.fs, msg, Date(world, dated, Secs(msg)), dest) + eol)
  }

  function RefOutputs(world: World, customs: set<char>, eol: string, r: Ref, ops: seq<Op>): seq<string>
    decreases |ops|
  {
    if ops == [] then []
    else
      var (n, out) := RefStep(world, customs, eol, r, ops[0]);
      [out] + RefOutputs(world, customs, eol, n, ops[1..])
  }

  /** need_localtime is not switched off under a pattern that reads the date, and it is on
      when custom formatters that read it are called. */
  predicate Allowed(world: World, r: Ref, op: Op) {
    match op
    case SetPattern(_) => true
    case NeedLocaltime(need) => need || !HasDated(r.fs)
    case Format(_, _) => r.need || !HasDatedCustom(world, r.fs)
  }

  predicate AllAllowed(world: World, customs: set<char>, r: Ref, ops: seq<Op>)
    decreases |ops|
  {
    ops != [] ==> Allowed(world, r, ops[0]) && AllAllowed(world, customs, RefStep(world, customs, "", r, ops[0]).0, ops[1..])
  }

  // ----- the caches never show -----

  function Bare(f: Formatter): Formatter { if f.Full? then Full(f.pad, 0, "") else f }

  predicate CacheOk(world: World, f: Formatter, dated: bool) {
    f.Full? && f.datetime != "" ==> f.datetime == DateText(Date(world, dated, f.stamp)) && (dated || f.stamp == 0)
  }

  ghost predicate Matches(world: World, m: Memory, r: Ref) {
    && m.needLocaltime == r.need
    && (HasDated(r.fs) ==> r.need)
    && (if r.dated then m.cachedTm == world.calendar(m.lastLogSecs) else m.lastLogSecs == 0 && m.cachedTm == ZERO_TM)
    && |m.formatters| == |r.fs|
    && (forall i :: 0 <= i < |r.fs| ==> Bare(m.formatters[i]) == Bare(r.fs[i]) && CacheOk(world, m.formatters[i], r.dated))
  }

  /** What a freshly compiled list holds has no caches yet. */
  lemma {:induction false} CompiledBare(customs: set<char>, s: string, chars: string)
    ensures forall i :: 0 <= i < |CompileFrom(customs, s, chars)| ==>
              Bare(CompileFrom(customs, s, chars)[i]) == CompileFrom(customs, s, chars)[i]
    decreases |s|
  {
    if s == "" {
    } else if s[0] == '%' {
      var spec := PadSpec(s[1..]);
      if spec.rest != "" {
        CompiledBare(customs, spec.rest[1..], "");
      }
    } else {
      CompiledBare(customs, s[1..], chars + [s[0]]);
    }
  }

  /** Formatters that do not read the date give the same text under any date. */
  lemma {:induction false} DateUnread(world: World, fs: seq<Formatter>, msg: Msg, a: Tm, b: Tm, buffer: string)
    requires !HasDated(fs) && !HasDatedCustom(world, fs)
    ensures PlainText(world, fs, msg, a, buffer) == PlainText(world, fs, msg, b, buffer)
    decreases |fs|
  {
    if fs != [] {
      assert !ReadsDate(fs[0]) && !(fs[0].Custom? && world.readsDate(fs[0].flag));
      assert forall i :: 0 <= i < |fs[1..]| ==> fs[1..][i] == fs[i + 1];
      DateUnread(world, fs[1..], msg, a, b, PlainOne(world, fs[0], msg, a, buffer));
    }
  }

  /** A cache holding the text of its second, or an outdated one, gives the uncached text. */
  lemma {:induction false} TextAgrees(
      world: World, fs: seq<Formatter>, bare: seq<Formatter>, msg: Msg, tm: Tm, buffer: string)
    requires |fs| == |bare| && forall i :: 0 <= i < |fs| ==> Bare(fs[i]) == Bare(bare[i])
    requires forall i :: 0 <= i < |fs| && fs[i].Full? && fs[i].stamp == Secs(msg) && fs[i].datetime != "" ==>
               fs[i].datetime == DateText(tm)
    ensures AllText(world, fs, msg, tm, buffer) == PlainText(world, bare, msg, tm, buffer)
    decreases |fs|
  {
    if fs != [] {
      assert Bare(fs[0]) == Bare(bare[0]);
      assert Written(world, fs[0], msg, tm, buffer) == PlainOne(world, bare[0], msg, tm, buffer);
      TextAgrees(world, fs[1..], bare[1..], msg, tm, PlainOne(world, bare[0], msg, tm, buffer));
    }
  }

  lemma FormatAgrees(world: World, customs: set<char>, eol: string, m: Memory, r: Ref, msg: Msg, dest: string)
    requires Matches(world, m, r) && Allowed(world, r, Format(msg, dest))
    ensures Step(world, customs, eol, m, Format(msg, dest)).1 == RefStep(world, customs, eol, r, Format(msg, dest)).1
    ensures Matches(world, Step(world, customs, eol, m, Format(msg, dest)).0,
                    RefStep(world, customs, eol, r, Format(msg, dest)).0)
  {
    var n := Refresh(world, m, msg);
    var dated := r.dated || (r.need && Secs(msg) != 0);
    if r.need {
      assert n.cachedTm == Date(world, dated, Secs(msg));
    } else {
      assert forall i :: 0 <= i < |r.fs| ==> !ReadsDate(r.fs[i]) && Bare(m.formatters[i]) == Bare(r.fs[i]);
      DateUnread(world, r.fs, msg, n.cachedTm, Date(world, dated, Secs(msg)), dest);
    }
    forall i | 0 <= i < |r.fs|
      ensures var f, g := m.formatters[i], Renewed(m.formatters[i], msg, n.cachedTm);
              && Bare(g) == Bare(r.fs[i]) && CacheOk(world, g, dated)
              && (f.Full? && f.stamp == Secs(msg) && f.datetime != "" ==> f.datetime == DateText(n.cachedTm))
    {
      assert Bare(m.formatters[i]) == Bare(r.fs[i]) && CacheOk(world, m.formatters[i], r.dated);
      if m.formatters[i].Full? {
        assert ReadsDate(r.fs[i]);
      }
    }
    TextAgrees(world, m.formatters, r.fs, msg, n.cachedTm, dest);
  }

  lemma StepAgrees(world: World, customs: set<char>, eol: string, m: Memory, r: Ref, op: Op)
    requires Matches(world, m, r) && Allowed(world, r, op)
    ensures Step(world, customs, eol, m, op).1 == RefStep(world, customs, eol, r, op).1
    ensures Matches(world, Step(world, customs, eol, m, op).0, RefStep(world, customs, eol, r, op).0)
  {
    match op
    case SetPattern(p) =>
      CompiledBare(customs, p, "");
      var fs := Compile(customs, p);
      forall i | 0 <= i < |fs| ensures CacheOk(world, fs[i], r.dated) { assert Bare(fs[i]) == fs[i]; }
    case NeedLocaltime(need) =>
    case Format(msg, dest) => FormatAgrees(world, customs, eol, m, r, msg, dest);
  }

  /** Over any calls, with messages in any time order, the caches do not show: the only trace of
      the past is whether a message has set the date yet. */
  lemma {:induction false} CachesNeverShow(world: World, customs: set<char>, eol: string, m: Memory, r: Ref, ops: seq<Op>)
    requires Matches(world, m, r) && AllAllowed(world, customs, r, ops)
    ensures Outputs(world, customs, eol, m, ops) == RefOutputs(world, customs, eol, r, ops)
    decreases |ops|
  {
    if ops != [] {
      StepAgrees(world, customs, eol, m, r, ops[0]);
      var m', r' := Step(world, customs, eol, m, ops[0]).0, RefStep(world, customs, eol, r, ops[0]).0;
      assert r' == RefStep(world, customs, "", r, ops[0]).0;
      CachesNeverShow(world, customs, eol, m', r', ops[1..]);
    }
  }

  // ----- second zero -----

  /** Every message is formatted with the date of its own second. */
  function Uncached(world: World, customs: set<char>, eol: string, fs: seq<Formatter>, ops: seq<Op>): seq<string>
    decreases |ops|
  {
    if ops == [] then []
    else
      match ops[0]
      case SetPattern(p) => [""] + Uncached(world, customs, eol, Compile(customs, p), ops[1..])
      case NeedLocaltime(_) => [""] + Uncached(world, customs, eol, fs, ops[1..])
      case Format(msg, dest) =>
        [PlainText(world, fs, msg, world.calendar(Secs(msg)), dest) + eol] + Uncached(world, customs, eol, fs, ops[1..])
  }

  /** The first message formatted while the date is needed is not from second 0. */
  predicate StartsOutsideZero(customs: set<char>, need: bool, ops: seq<Op>)
    decreases |ops|
  {
    if ops == [] then true
    else
      match ops[0]
      case SetPattern(p) => StartsOutsideZero(customs, HasDated(Compile(customs, p)), ops[1..])
      case NeedLocaltime(b) => StartsOutsideZero(customs, b, ops[1..])
      case Format(msg, _) => if need then Secs(msg) != 0 else StartsOutsideZero(customs, need, ops[1..])
  }

  lemma {:induction false} RefIsUncached(world: World, customs: set<char>, eol: string, r: Ref, ops: seq<Op>)
    requires AllAllowed(world, customs, r, ops) && (HasDated(r.fs) ==> r.need)
    requires r.dated || StartsOutsideZero(customs, r.need, ops)
    ensures RefOutputs(world, customs, eol, r, ops) == Uncached(world, customs, eol, r.fs, ops)
    decreases |ops|
  {
    if ops != [] {
      var r' := RefStep(world, customs, eol, r, ops[0]).0;
      assert r' == RefStep(world, customs, "", r, ops[0]).0;
      RefIsUncached(world, customs, eol, r', ops[1..]);
      if ops[0].Format? && !r.need {
        var secs := Secs(ops[0].msg);
        DateUnread(world, r.fs, ops[0].msg, Date(world, r.dated, secs), world.calendar(secs), ops[0].dest);
      }
    }
  }

  function Fresh(customs: set<char>, pattern: string): Memory {
    Memory(Compile(customs, pattern), HasDated(Compile(customs, pattern)), 0, ZERO_TM)
  }

  lemma FreshMatches(world: World, customs: set<char>, pattern: string)
    ensures var fs := Compile(customs, pattern); Matches(world, Fresh(customs, pattern), Ref(fs, HasDated(fs), false))
  {
    var fs := Compile(customs, pattern);
    CompiledBare(customs, pattern, "");
    forall i | 0 <= i < |fs| ensures CacheOk(world, fs[i], false) { assert Bare(fs[i]) == fs[i]; }
  }

  /** A formatter built from a pattern writes what it would write by converting the time of every
      message anew, provided the first message that needs the date is not from second 0. */
  lemma CachedIsUncached(world: World, customs: set<char>, eol: string, pattern: string, ops: seq<Op>)
    requires var fs := Compile(customs, pattern);
             && AllAllowed(world, customs, Ref(fs, HasDated(fs), false), ops)
             && StartsOutsideZero(customs, HasDated(fs), ops)
    ensures Outputs(world, customs, eol, Fresh(customs, pattern), ops)
         == Uncached(world, customs, eol, Compile(customs, pattern), ops)
  {
    var fs := Compile(customs, pattern);
    var r := Ref(fs, HasDated(fs), false);
    FreshMatches(world, customs, pattern);
    CachesNeverShow(world, customs, eol, Fresh(customs, pattern), r, ops);
    RefIsUncached(world, customs, eol, r, ops);
  }

  /** Until a message from another second sets the date, the messages that need it read the same
      with the zeroed date. */
  predicate ZeroHarmless(world: World, customs: set<char>, fs: seq<Formatter>, need: bool, ops: seq<Op>)
    decreases |ops|
  {
    if ops == [] then true
    else
      match ops[0]
      case SetPattern(p) => ZeroHarmless(world, customs, Compile(customs, p), HasDated(Compile(customs, p)), ops[1..])
      case NeedLocaltime(b) => ZeroHarmless(world, customs, fs, b, ops[1..])
      case Format(msg, dest) =>
        if need && Secs(msg) != 0 then true
        else
          && (need ==> PlainText(world, fs, msg, ZERO_TM, dest) == PlainText(world, fs, msg, world.calendar(0), dest))
          && ZeroHarmless(world, customs, fs, need, ops[1..])
  }

  lemma ConsEqual(a: string, x: seq<string>, b: string, y: seq<string>)
    ensures [a] + x == [b] + y <==> a == b && x == y
  {
    assert ([a] + x)[0] == a && ([b] + y)[0] == b && ([a] + x)[1..] == x && ([b] + y)[1..] == y;
  }

  lemma SuffixEqual(a: string, b: string, eol: string)
    ensures a + eol == b + eol <==> a == b
  {
    if a + eol == b + eol {
      assert (a + eol)[..|a|] == a && (b + eol)[..|b|] == b;
    }
  }

  lemma {:induction false} RefExactlyWhen(world: World, customs: set<char>, eol: string, r: Ref, ops: seq<Op>)
    requires AllAllowed(world, customs, r, ops) && (HasDated(r.fs) ==> r.need) && !r.dated
    ensures (RefOutputs(world, customs, eol, r, ops) == Uncached(world, customs, eol, r.fs, ops))
       <==> ZeroHarmless(world, customs, r.fs, r.need, ops)
    decreases |ops|
  {
    if ops != [] {
      var (r', out) := RefStep(world, customs, eol, r, ops[0]);
      assert r' == RefStep(world, customs, "", r, ops[0]).0;
      if ops[0].Format? {
        var secs := Secs(ops[0].msg);
        var here := PlainText(world, r.fs, ops[0].msg, world.calendar(secs), ops[0].dest);
        ConsEqual(out, RefOutputs(world, customs, eol, r', ops[1..]), here + eol, Uncached(world, customs, eol, r.fs, ops[1..]));
        if r.need && secs != 0 {
          RefIsUncached(world, customs, eol, r', ops[1..]);
        } else {
          RefExactlyWhen(world, customs, eol, r', ops[1..]);
          SuffixEqual(PlainText(world, r.fs, ops[0].msg, ZERO_TM, ops[0].dest), here, eol);
          if !r.need { DateUnread(world, r.fs, ops[0].msg, ZERO_TM, world.calendar(secs), ops[0].dest); }
        }
      } else {
        RefExactlyWhen(world, customs, eol, r', ops[1..]);
        ConsEqual(out, RefOutputs(world, customs, eol, r', ops[1..]), "", Uncached(world, customs, eol, r'.fs, ops[1..]));
      }
    }
  }

  /** Over every run, the cached formatter writes what an uncached one would exactly when the
      zeroed date does no harm. */
  lemma SecondZeroExactlyWhen(world: World, customs: set<char>, eol: string, pattern: string, ops: seq<Op>)
    requires var fs := Compile(customs, pattern); AllAllowed(world, customs, Ref(fs, HasDated(fs), false), ops)
    ensures (Outputs(world, customs, eol, Fresh(customs, pattern), ops)
             == Uncached(world, customs, eol, Compile(customs, pattern), ops))
       <==> ZeroHarmless(world, customs, Compile(customs, pattern), HasDated(Compile(customs, pattern)), ops)
  {
    var fs := Compile(customs, pattern);
    var r := Ref(fs, HasDated(fs), false);
    FreshMatches(world, customs, pattern);
    CachesNeverShow(world, customs, eol, Fresh(customs, pattern), r, ops);
    RefExactlyWhen(world, customs, eol, r, ops);
  }

  predicate OnlyMessages(ops: seq<Op>) { forall i :: 0 <= i < |ops| ==> ops[i].Format? }

  lemma {:induction false} MessagesAllowed(world: World, customs: set<char>, r: Ref, ops: seq<Op>)
    requires r.need && OnlyMessages(ops)
    ensures AllAllowed(world, customs, r, ops)
    decreases |ops|
  {
    if ops != [] {
      assert ops[0].Format? && forall i :: 0 <= i < |ops[1..]| ==> ops[1..][i] == ops[i + 1];
      MessagesAllowed(world, customs, RefStep(world, customs, "", r, ops[0]).0, ops[1..]);
    }
  }

  /** Under the full pattern, where the zeroed date does not read like second 0, a run of
      messages comes out right exactly when the first is not from second 0. */
  lemma FullExactlyWhen(world: World, customs: set<char>, eol: string, ops: seq<Op>)
    requires '+' !in customs && OnlyMessages(ops) && DateText(ZERO_TM) != DateText(world.calendar(0))
    ensures (Outputs(world, customs, eol, Fresh(customs, "%+"), ops)
             == Uncached(world, customs, eol, Compile(customs, "%+"), ops))
       <==> StartsOutsideZero(customs, true, ops)
  {
    FullPattern(customs);
    var fs := [Full(NO_PADDING, 0, "")];
    assert ReadsDate(fs[0]);
    MessagesAllowed(world, customs, Ref(fs, true, false), ops);
    SecondZeroExactlyWhen(world, customs, eol, "%+", ops);
    if ops != [] {
      var msg, dest := ops[0].msg, ops[0].dest;
      FullText(world, msg, ZERO_TM, dest);
      FullText(world, msg, world.calendar(0), dest);
      MiddleEqual(dest, DateText(ZERO_TM), DateText(world.calendar(0)), Tail(msg));
    }
  }

  /** It does not for the usual epoch: the year reads 1900 instead of 1970. */
  lemma EpochIsNotZero(tm: Tm)
    requires tm.year == 70
    ensures DateText(ZERO_TM) != DateText(tm)
  {
    YearShows(ZERO_TM);
    YearShows(tm);
  }

  /** So under the full pattern and the usual epoch every run that starts in second 0 comes out wrong. */
  lemma SecondZeroIsWrong(world: World, customs: set<char>, eol: string, ops: seq<Op>)
    requires '+' !in customs && OnlyMessages(ops) && ops != [] && Secs(ops[0].msg) == 0
    requires world.calendar(0).year == 70
    ensures Outputs(world, customs, eol, Fresh(customs, "%+"), ops)
         != Uncached(world, customs, eol, Compile(customs, "%+"), ops)
  {
    EpochIsNotZero(world.calendar(0));
    FullExactlyWhen(world, customs, eol, ops);
  }

  lemma FullText(world: World, msg: Msg, tm: Tm, dest: string)
    ensures PlainText(world, [Full(NO_PADDING, 0, "")], msg, tm, dest) == dest + (DateText(tm) + Tail(msg))
  {
    assert [Full(NO_PADDING, 0, "")][1..] == [];
  }

  lemma MiddleEqual(dest: string, a: string, b: string, tail: string)
    ensures dest + (a + tail) == dest + (b + tail) <==> a == b
  {
    SuffixEqual(a, b, tail);
    assert (dest + (a + tail))[|dest|..] == a + tail && (dest + (b + tail))[|dest|..] == b + tail;
  }

  lemma YearShows(tm: Tm)
    requires tm.year == 0 || tm.year == 70
    ensures |DateText(tm)| > 3 && DateText(tm)[3] == if tm.year == 0 then '0' else '7'
  {
    assert Digits(1900) == "1900" && Digits(1970) == "1970";
    assert DateText(tm)[3] == IntText(tm.year + 1900)[2];
  }

  lemma FullPattern(customs: set<char>)
    requires '+' !in customs
    ensures Compile(customs, "%+") == [Full(NO_PADDING, 0, "")]
  {
    assert "%+"[1..] == "+" && DigitRun("+") == 0;
    assert PadSpec("+") == Spec(NO_PADDING, "+");
    assert CompileFrom(customs, "+"[1..], "") == [];
  }

  // ----- the object -----

  lemma DatedAppend(a: seq<Formatter>, b: seq<Formatter>)
    ensures HasDated(a + b) == (HasDated(a) || HasDated(b))
  {
    if HasDated(a) {
      var i :| 0 <= i < |a| && ReadsDate(a[i]);
      assert (a + b)[i] == a[i];
    }
    if HasDated(b) {
      var i :| 0 <= i < |b| && ReadsDate(b[i]);
      assert (a + b)[|a| + i] == b[i];
    }
  }

  lemma CollectsOne(customs: set<char>, p: string, it: nat, chars: string)
    requires it < |p| && p[it] != '%'
    ensures CompileFrom(customs, p[it..], chars) == CompileFrom(customs, p[it + 1..], chars + [p[it]])
  {
    assert p[it..][1..] == p[it + 1..];
  }

  lemma OneDigit(s: string)
    requires s != "" && IsDigit(s[0])
    ensures AllDigits(s[..1]) && Value(s[..1]) == DigitValue(s[0]) == Value(s[..1]) % SIZE_MOD
  {
    assert s[..1][..0] == "";
  }

  lemma MoreDigits(s: string, n: nat)
    requires n < |s| && AllDigits(s[..n]) && IsDigit(s[n])
    ensures AllDigits(s[..n + 1])
    ensures Value(s[..n + 1]) % SIZE_MOD == (Value(s[..n]) % SIZE_MOD * 10 + DigitValue(s[n])) % SIZE_MOD
  {
    assert s[..n + 1][..n] == s[..n];
    assert forall i :: 0 <= i < n ==> s[..n + 1][i] == s[..n][i];
    Accumulate(Value(s[..n]), DigitValue(s[n]));
  }

  lemma Accumulate(v: nat, d: nat)
    ensures (10 * v + d) % SIZE_MOD == (v % SIZE_MOD * 10 + d) % SIZE_MOD
  {
    var q := v / SIZE_MOD;
    assert v == SIZE_MOD * q + v % SIZE_MOD;
    assert 10 * v + d == SIZE_MOD * (10 * q) + (v % SIZE_MOD * 10 + d);
  }

  class PatternFormatter {
    const world: World
    const customs: set<char>
    const eol: string
    var pattern: string
    var formatters: seq<Formatter>
    var needLocaltime: bool
    var lastLogSecs: int
    var cachedTm: Tm

    function State(): Memory
      reads this
    {
      Memory(formatters, needLocaltime, lastLogSecs, cachedTm)
    }

    constructor (world: World, pattern: string, eol: string, customs: set<char>)
      ensures this.world == world && this.eol == eol && this.customs == customs && this.pattern == pattern
      ensures State() == Fresh(customs, pattern)
    {
      this.world, this.pattern, this.eol, this.customs := world, pattern, eol, customs;
      needLocaltime := false;
      lastLogSecs := 0;
      cachedTm := ZERO_TM;
      formatters := [];
      new;
      CompilePattern(pattern);
    }

    /** Without a pattern: the full formatter, needing the date from the start. */
    constructor Default(world: World, eol: string)
      ensures this.world == world && this.eol == eol && this.customs == {} && pattern == "%+"
      ensures State() == Fresh({}, pattern)
    {
      this.world, this.eol, this.customs := world, eol, {};
      pattern := "%+";
      needLocaltime := true;
      lastLogSecs := 0;
      cachedTm := ZERO_TM;
      formatters := [Full(NO_PADDING, 0, "")];
      FullPattern({});
      assert ReadsDate(Compile({}, "%+")[0]);
    }

    method SetPattern(p: string)
      modifies this
      ensures pattern == p
      ensures State() == Step(world, customs, eol, old(State()), Op.SetPattern(p)).0
    {
      pattern := p;
      needLocaltime := false;
      CompilePattern(p);
    }

    method NeedLocaltime(need: bool)
      modifies this`needLocaltime
      ensures State() == Step(world, customs, eol, old(State()), Op.NeedLocaltime(need)).0
    {
      needLocaltime := need;
    }

    /** Advances past a padding specification, accumulating the width in 64 bits. */
    method HandlePadspec(s: string, start: nat) returns (pad: Padding, it: nat)
      requires start <= |s|
      ensures start <= it <= |s| && PadSpec(s[start..]) == Spec(pad, s[it..])
    {
      if start == |s| {
        return NO_PADDING, start;
      }
      var side;
      side, it := ReadSide(s, start);
      ghost var from, digits := it, s[it..];
      if it == |s| || !IsDigit(s[it]) {
        RunEnds(digits, 0);
        return NO_PADDING, it;
      }
      var width;
      width, it := ReadWidth(s, it);
      assert digits[it - from..] == s[it..];
      var truncate := false;
      if it != |s| && s[it] == '!' {
        truncate := true;
        it := it + 1;
        assert digits[it - from..] == s[it..];
      }
      pad := Padding(Min(width, MAX_WIDTH), side, truncate, true);
    }

    method ReadSide(s: string, start: nat) returns (side: Side, it: nat)
      requires start < |s|
      ensures start <= it <= |s| && PadSpec(s[start..]) == WidthSpec(side, s[it..])
    {
      side, it := Left, start;
      assert s[start..][1..] == s[start + 1..];
      if s[it] == '-' {
        side := Right;
        it := it + 1;
      } else if s[it] == '=' {
        side := Center;
        it := it + 1;
      }
    }

    method ReadWidth(s: string, from: nat) returns (width: nat, it: nat)
      requires from < |s| && IsDigit(s[from])
      ensures it == from + DigitRun(s[from..]) <= |s|
      ensures AllDigits(s[from..][..it - from]) && width == Value(s[from..][..it - from]) % SIZE_MOD
    {
      ghost var digits := s[from..];
      width := DigitValue(s[from]);
      it := from + 1;
      OneDigit(digits);
      while it != |s| && IsDigit(s[it])
        invariant from < it <= |s|
        invariant AllDigits(digits[..it - from])
        invariant width == Value(digits[..it - from]) % SIZE_MOD
      {
        width := (width * 10 + DigitValue(s[it])) % SIZE_MOD;
        MoreDigits(digits, it - from);
        it := it + 1;
      }
      ghost var n := it - from;
      forall i | 0 <= i < n ensures IsDigit(digits[i]) { assert digits[i] == digits[..n][i]; }
      RunEnds(digits, n);
    }

    method HandleFlag(flag: char, pad: Padding)
      modifies this`formatters, this`needLocaltime
      ensures formatters == old(formatters) + Pattern.HandleFlag(customs, flag, pad)
      ensures needLocaltime == (old(needLocaltime) || HasDated(Pattern.HandleFlag(customs, flag, pad)))
    {
      ghost var made := Pattern.HandleFlag(customs, flag, pad);
      assert ReadsDate(made[0]) ==> HasDated(made);
      if flag in customs {
        formatters := formatters + [Custom(flag, pad)];
      } else if flag == '+' {
        formatters := formatters + [Full(pad, 0, "")];
        needLocaltime := true;
      } else if flag == '%' {
        formatters := formatters + [Percent];
      } else if IsFlag(flag) {
        formatters := formatters + [Flag(Canonical(flag), pad)];
        if IsDated(flag) {
          needLocaltime := true;
        }
      } else if !pad.truncate {
        formatters := formatters + [Text(['%', flag])];
      } else {
        formatters := formatters + [Flag('!', pad.(truncate := false))];
        formatters := formatters + [Text([flag])];
      }
    }

    /** The date is needed from before, or by a formatter. */
    ghost predicate NeedFits(base: bool)
      reads this`formatters, this`needLocaltime
    {
      needLocaltime == (base || HasDated(formatters))
    }

    ghost function Rest(p: string, it: nat, chars: string, more: bool): seq<Formatter>
      requires more ==> it <= |p|
    {
      if more then CompileFrom(customs, p[it..], chars) else Flush(chars)
    }

    /** The collected characters become a formatter. */
    method FlushChars(chars: string, ghost base: bool)
      requires NeedFits(base)
      modifies this`formatters
      ensures NeedFits(base)
      ensures formatters == old(formatters) + Flush(chars)
    {
      DatedAppend(formatters, Flush(chars));
      if chars != "" {
        formatters := formatters + [Text(chars)];
      }
    }

    /** At a '%': the collected characters, then the flag behind it; false when the pattern ends first. */
    method CompileFlag(p: string, at: nat, chars: string, ghost base: bool) returns (more: bool, it: nat)
      requires at < |p| && p[at] == '%' && NeedFits(base)
      modifies this`formatters, this`needLocaltime
      ensures NeedFits(base)
      ensures more ==> at < it < |p|
      ensures formatters + Rest(p, it + 1, "", more) == old(formatters) + Rest(p, at, chars, true)
    {
      assert p[at..][1..] == p[at + 1..];
      FlushChars(chars, base);
      var pad;
      pad, it := HandlePadspec(p, at + 1);
      more := it < |p|;
      ghost var made := if more then Pattern.HandleFlag(customs, p[it], pad) else [];
      Flushes(customs, p[at..], chars);
      if more {
        HandleFlag(p[it], pad);
        assert p[it..][1..] == p[it + 1..];
        CompilesFlag(customs, p[at..], Spec(pad, p[it..]), made);
        Regroup(old(formatters) + Flush(chars), made, CompileFrom(customs, p[it + 1..], ""));
        Regroup(old(formatters), Flush(chars), CompileFrom(customs, p[at..], ""));
      }
      DatedAppend(old(formatters) + Flush(chars), made);
    }

    /** One round of the compile loop. */
    method CompileRound(p: string, at: nat, chars: string, ghost base: bool)
      returns (more: bool, it: nat, userChars: string)
      requires at < |p| && NeedFits(base)
      modifies this`formatters, this`needLocaltime
      ensures NeedFits(base) && it > at && (more ==> it <= |p|)
      ensures formatters + Rest(p, it, userChars, more) == old(formatters) + Rest(p, at, chars, true)
    {
      if p[at] == '%' {
        more, it := CompileFlag(p, at, chars, base);
        userChars := "";
        it := if more then it + 1 else at + 1;
      } else {
        CollectsOne(customs, p, at, chars);
        more, it, userChars := true, at + 1, chars + [p[at]];
      }
    }

    method CompilePattern(p: string)
      modifies this`formatters, this`needLocaltime
      ensures formatters == Compile(customs, p)
      ensures needLocaltime == (old(needLocaltime) || HasDated(formatters))
    {
      formatters := [];
      var userChars := "";
      var it: nat := 0;
      var more := true;
      assert p[0..] == p;
      assert Rest(p, 0, "", true) == Compile(customs, p);
      while more && it < |p|
        invariant more ==> it <= |p|
        invariant formatters + Rest(p, it, userChars, more) == Compile(customs, p)
        invariant NeedFits(old(needLocaltime))
        decreases more, |p| - it
      {
        more, it, userChars := CompileRound(p, it, userChars, old(needLocaltime));
      }
      assert Rest(p, it, userChars, more) == Flush(userChars) by {
        if more {
          assert p[it..] == "";
        }
      }
      FlushChars(userChars, old(needLocaltime));
    }

    /** A full formatter first renews its date text when the second is another one or there is none yet. */
    method AppendFull(f: Formatter, msg: Msg, tm: Tm, dest: MemoryBuffer) returns (g: Formatter)
      requires f.Full?
      modifies dest
      ensures g == Renewed(f, msg, tm) && dest.data == Written(world, f, msg, tm, old(dest.data))
    {
      g := f;
      if f.stamp != Secs(msg) || f.datetime == "" {
        g := Full(f.pad, Secs(msg), DateText(tm));
      }
      dest.AppendBoth(g.datetime, Tail(msg));
    }

    /** One formatter. */
    method Append(f: Formatter, msg: Msg, tm: Tm, dest: MemoryBuffer) returns (g: Formatter)
      modifies dest
      ensures g == Renewed(f, msg, tm) && dest.data == Written(world, f, msg, tm, old(dest.data))
    {
      g := f;
      match f {
        case Text(chars) => dest.Append(chars);
        case Percent => dest.Append("%");
        case Flag(flag, pad) =>
          if IsDated(flag) {
            dest.data := world.dated(flag, pad, msg, tm, dest.data);
          } else {
            dest.data := world.plain(flag, pad, msg, dest.data);
          }
        case Custom(flag, pad) =>
          if world.readsDate(flag) {
            dest.data := world.customDated(flag, pad, msg, tm, dest.data);
          } else {
            dest.data := world.customPlain(flag, pad, msg, dest.data);
          }
        case Full(_, _, _) => g := AppendFull(f, msg, tm, dest);
      }
    }

    method FormatAll(msg: Msg, dest: MemoryBuffer)
      requires dest as object != this
      modifies this`formatters, dest
      ensures formatters == Updated(old(formatters), msg, cachedTm)
      ensures dest.data == AllText(world, old(formatters), msg, cachedTm, old(dest.data))
    {
      ghost var fs := formatters;
      var i := 0;
      while i < |formatters|
        invariant i <= |formatters| == |fs|
        invariant forall j :: 0 <= j < i ==> formatters[j] == Renewed(fs[j], msg, cachedTm)
        invariant forall j :: i <= j < |fs| ==> formatters[j] == fs[j]
        invariant AllText(world, fs[i..], msg, cachedTm, dest.data) == AllText(world, fs, msg, cachedTm, old(dest.data))
      {
        assert fs[i..][1..] == fs[i + 1..];
        var g := Append(formatters[i], msg, cachedTm, dest);
        formatters := formatters[i := g];
        i := i + 1;
      }
    }

    method Format(msg: Msg, dest: MemoryBuffer)
      requires dest as object != this
      modifies this, dest
      ensures pattern == old(pattern)
      ensures State() == Step(world, customs, eol, old(State()), Op.Format(msg, old(dest.data))).0
      ensures dest.data == Step(world, customs, eol, old(State()), Op.Format(msg, old(dest.data))).1
    {
      if needLocaltime {
        var secs := Secs(msg);
        if secs != lastLogSecs {
          cachedTm := world.calendar(secs);
          lastLogSecs := secs;
        }
      }
      FormatAll(msg, dest);
      dest.Append(eol);
    }
  }
}
