/** The pattern language: what a pattern compiles to, and how a compiled list is spelled.
    Custom flags are a set of characters: they take precedence over the built-in ones. */
module Pattern {
  import opened Decimal
  import opened Padder
  import opened Sequences
  import opened Sizes

  /** A compiled formatter. The full formatter carries its cached second and date text. */
  datatype Formatter =
    | Text(chars: string)
    | Percent
    | Flag(flag: char, pad: Padding)
    | Full(pad: Padding, stamp: int, datetime: string)
    | Custom(flag: char, pad: Padding)

  /** Built-in flags whose formatter reads the broken-down date, besides '+'. */
  predicate IsDated(c: char) {
    || c in {'a', 'A', 'b', 'B', 'h', 'c', 'C', 'Y', 'D', 'x', 'm'}
    || c in {'d', 'H', 'I', 'M', 'S', 'p', 'r', 'R', 'T', 'X', 'z'}
  }

  /** Built-in flags with a formatter of their own, besides '+' and '%'. */
  predicate IsFlag(c: char) {
    || IsDated(c)
    || c in {'n', 'l', 'L', 't', 'v', 'P', 'g', 's', 'u', '@', '#', '!', '^', '$'}
    || c in {'e', 'f', 'F', 'E', 'i', 'o', 'O'}
  }

  /** Three flags share another's formatter. */
  function Canonical(flag: char): char {
    if flag == 'h' then 'b' else if flag == 'x' then 'D' else if flag == 'X' then 'T' else flag
  }

  function Min(a: nat, b: nat): nat { if a < b then a else b }

  datatype Spec = Spec(pad: Padding, rest: string)

  /** The width a numeral stands for: accumulated in 64 bits, then capped. */
  function Width(v: nat): (w: nat)
    ensures w <= MAX_WIDTH
  {
    Min(v % SIZE_MOD, MAX_WIDTH)
  }

  /** The width and truncation mark behind the side mark. */
  function WidthSpec(side: Side, s: string): (r: Spec)
    ensures |r.rest| <= |s|
  {
    var n := DigitRun(s);
    if n == 0 then Spec(NO_PADDING, s)
    else if n < |s| && s[n] == '!' then Spec(Padding(Width(Value(s[..n])), side, true, true), s[n + 1..])
    else Spec(Padding(Width(Value(s[..n])), side, false, true), s[n..])
  }

  /** handle_padspec_: the padding a string starts with, and what follows it. A side mark
      without a width is dropped. */
  function PadSpec(s: string): (r: Spec)
    ensures |r.rest| <= |s|
  {
    if s == "" then Spec(NO_PADDING, "")
    else if s[0] == '-' then WidthSpec(Right, s[1..])
    else if s[0] == '=' then WidthSpec(Center, s[1..])
    else WidthSpec(Left, s)
  }

  /** handle_flag_. */
  function HandleFlag(customs: set<char>, flag: char, pad: Padding): seq<Formatter> {
    if flag in customs then [Custom(flag, pad)]
    else if flag == '+' then [Full(pad, 0, "")]
    else if flag == '%' then [Percent]
    else if IsFlag(flag) then [Flag(Canonical(flag), pad)]
    else if !pad.truncate then [Text(['%', flag])]
    else [Flag('!', pad.(truncate := false)), Text([flag])]
  }

  function Flush(chars: string): seq<Formatter> {
    if chars == "" then [] else [Text(chars)]
  }

  /** compile_pattern_, with the characters collected so far. */
  function CompileFrom(customs: set<char>, s: string, chars: string): seq<Formatter>
    decreases |s|
  {
    if s == "" then Flush(chars)
    else if s[0] == '%' then
      var spec := PadSpec(s[1..]);
      if spec.rest == "" then Flush(chars)
      else Flush(chars) + HandleFlag(customs, spec.rest[0], spec.pad) + CompileFrom(customs, spec.rest[1..], "")
    else CompileFrom(customs, s[1..], chars + [s[0]])
  }

  function Compile(customs: set<char>, pattern: string): seq<Formatter> {
    CompileFrom(customs, pattern, "")
  }

  /** The width counts as written, up to 64, unless it is so long that it wraps to less. */
  lemma WidthExactlyWhen(v: nat)
    ensures Width(v) == Min(v, MAX_WIDTH) <==> v < SIZE_MOD || v % SIZE_MOD >= MAX_WIDTH
  {
    if v < SIZE_MOD { assert v % SIZE_MOD == v; }
  }

  // ----- spelling -----

  function SideMark(side: Side): string {
    match side
    case Left => ""
    case Right => "-"
    case Center => "="
  }

  function WidthMark(pad: Padding): string {
    Digits(pad.width) + (if pad.truncate then "!" else "")
  }

  function SpellPad(pad: Padding): string {
    if !pad.enabled then ""
    else SideMark(pad.side) + WidthMark(pad)
  }

  function Letter(x: Formatter): char
    requires !x.Text? && !x.Percent?
  {
    if x.Full? then '+' else x.flag
  }

  function SpellOne(x: Formatter): string {
    if x.Text? then x.chars
    else if x.Percent? then "%%"
    else "%" + SpellPad(x.pad) + [Letter(x)]
  }

  function Spell(fs: seq<Formatter>): string {
    if fs == [] then "" else SpellOne(fs[0]) + Spell(fs[1..])
  }

  predicate PadOk(pad: Padding) {
    if pad.enabled then pad.width <= MAX_WIDTH else pad == NO_PADDING
  }

  /** What a compiled formatter looks like before its first use, with no '%' hidden in text. */
  predicate NormalOne(customs: set<char>, x: Formatter) {
    match x
    case Text(chars) => chars != "" && '%' !in chars
    case Percent => true
    case Flag(flag, pad) => IsFlag(flag) && Canonical(flag) == flag && flag !in customs && PadOk(pad)
    case Full(pad, stamp, datetime) => '+' !in customs && stamp == 0 && datetime == "" && PadOk(pad)
    case Custom(flag, pad) => flag in customs && PadOk(pad)
  }

  /** Merged text runs and normal elements. */
  predicate Normal(customs: set<char>, fs: seq<Formatter>) {
    && (forall i :: 0 <= i < |fs| ==> NormalOne(customs, fs[i]))
    && (forall i :: 0 < i < |fs| ==> !(fs[i - 1].Text? && fs[i].Text?))
  }

  predicate Unknown(customs: set<char>, c: char) {
    c !in customs && c != '+' && c != '%' && !IsFlag(c)
  }

  /** A flag is mistaken for part of its padding when it is a side mark or digit after a bare '%',
      a digit after an unmarked width, or '!' after an unmarked width. */
  predicate Clear(x: Formatter)
    requires !x.Text? && !x.Percent?
  {
    var c := Letter(x);
    if !x.pad.enabled then c != '-' && c != '=' && !IsDigit(c)
    else x.pad.truncate || (c != '!' && !IsDigit(c))
  }

  /** The repair of a padded '!': the mark was meant as the flag when an unknown flag follows. */
  predicate Repaired(customs: set<char>, x: Formatter, next: seq<Formatter>) {
    && x.Flag? && x.flag == '!' && x.pad.enabled && !x.pad.truncate
    && next != [] && next[0].Text? && |next[0].chars| == 1 && Unknown(customs, next[0].chars[0])
  }

  predicate Readable(customs: set<char>, x: Formatter, next: seq<Formatter>) {
    match x
    case Text(_) => true
    case Percent => '%' !in customs
    case _ => Clear(x) || Repaired(customs, x, next)
  }

  // ----- the compiler reads back what was spelled -----

  /** Plain characters are collected. */
  lemma {:induction false} Collects(customs: set<char>, t: string, rest: string, chars: string)
    requires '%' !in t
    ensures CompileFrom(customs, t + rest, chars) == CompileFrom(customs, rest, chars + t)
  {
    if t == "" {
      assert t + rest == rest && chars + t == chars;
    } else {
      assert (t + rest)[1..] == t[1..] + rest;
      assert chars + [t[0]] + t[1..] == chars + t;
      Collects(customs, t[1..], rest, chars + [t[0]]);
    }
  }

  /** At a '%' and at the end the collected characters become a formatter. */
  lemma Flushes(customs: set<char>, s: string, chars: string)
    requires s == "" || s[0] == '%'
    ensures CompileFrom(customs, s, chars) == Flush(chars) + CompileFrom(customs, s, "")
  {
    if s != "" {
      var spec := PadSpec(s[1..]);
      if spec.rest != "" {
        var tail := HandleFlag(customs, spec.rest[0], spec.pad) + CompileFrom(customs, spec.rest[1..], "");
        assert Flush("") + HandleFlag(customs, spec.rest[0], spec.pad) == HandleFlag(customs, spec.rest[0], spec.pad);
        assert Flush(chars) + HandleFlag(customs, spec.rest[0], spec.pad) + CompileFrom(customs, spec.rest[1..], "")
            == Flush(chars) + tail;
      }
    }
  }

  lemma ReadsWidth(pad: Padding, after: string)
    requires pad.enabled && PadOk(pad)
    requires pad.truncate || after == "" || (after[0] != '!' && !IsDigit(after[0]))
    ensures WidthSpec(pad.side, WidthMark(pad) + after) == Spec(pad, after)
    ensures WidthMark(pad) != "" && IsDigit(WidthMark(pad)[0])
  {
    var d := Digits(pad.width);
    var s := WidthMark(pad) + after;
    assert s[..|d|] == d;
    forall i | 0 <= i < |d| ensures IsDigit(s[i]) { assert s[i] == d[i]; }
    RunEnds(s, |d|);
    ValueOfDigits(pad.width);
    WidthExactlyWhen(pad.width);
    assert s[if pad.truncate then |d| + 1 else |d|..] == after;
  }

  /** A spelled padding is read back, unless what follows continues it. */
  lemma ReadsPad(pad: Padding, after: string)
    requires PadOk(pad)
    requires if !pad.enabled then after != "" && after[0] != '-' && after[0] != '=' && !IsDigit(after[0])
             else pad.truncate || after == "" || (after[0] != '!' && !IsDigit(after[0]))
    ensures PadSpec(SpellPad(pad) + after) == Spec(pad, after)
  {
    var s := SpellPad(pad) + after;
    if !pad.enabled {
      assert s == after;
      RunEnds(after, 0);
    } else {
      ReadsWidth(pad, after);
      ReadsSide(pad, WidthMark(pad) + after);
      Regroup(SideMark(pad.side), WidthMark(pad), after);
    }
  }

  lemma ReadsSide(pad: Padding, tail: string)
    requires tail != "" && IsDigit(tail[0])
    ensures PadSpec(SideMark(pad.side) + tail) == WidthSpec(pad.side, tail)
  {
    var s := SideMark(pad.side) + tail;
    if pad.side.Left? {
      assert s == tail;
    } else {
      assert s[1..] == tail;
    }
  }

  lemma HandlesOwn(customs: set<char>, x: Formatter)
    requires NormalOne(customs, x) && !x.Text? && !x.Percent?
    ensures HandleFlag(customs, Letter(x), x.pad) == [x]
  {
    assert !IsFlag('+') && !IsFlag('%');
  }

  lemma CompilesFlag(customs: set<char>, s: string, spec: Spec, made: seq<Formatter>)
    requires s != "" && s[0] == '%' && PadSpec(s[1..]) == spec && spec.rest != ""
    requires HandleFlag(customs, spec.rest[0], spec.pad) == made
    ensures CompileFrom(customs, s, "") == made + CompileFrom(customs, spec.rest[1..], "")
  {
    assert Flush("") + made == made;
  }

  lemma ReadsFlag(customs: set<char>, c: char, pad: Padding, made: seq<Formatter>, rest: string)
    requires PadOk(pad) && made == HandleFlag(customs, c, pad)
    requires if !pad.enabled then c != '-' && c != '=' && !IsDigit(c)
             else pad.truncate || (c != '!' && !IsDigit(c))
    ensures CompileFrom(customs, "%" + SpellPad(pad) + [c] + rest, "") == made + CompileFrom(customs, rest, "")
  {
    var s, after := "%" + SpellPad(pad) + [c] + rest, [c] + rest;
    assert s[1..] == SpellPad(pad) + after;
    ReadsPad(pad, after);
    CompilesFlag(customs, s, Spec(pad, after), made);
    assert after[1..] == rest;
  }

  /** A flag nobody knows is written as it stands, without its padding; behind a truncation mark
      the mark was meant as the flag '!', and the character stays text. */
  lemma UnknownIsWritten(customs: set<char>, c: char, pad: Padding, rest: string)
    requires PadOk(pad) && Unknown(customs, c)
    requires if !pad.enabled then c != '-' && c != '=' && !IsDigit(c) else pad.truncate || !IsDigit(c)
    ensures CompileFrom(customs, "%" + SpellPad(pad) + [c] + rest, "")
         == (if pad.truncate then [Flag('!', pad.(truncate := false)), Text([c])] else [Text(['%', c])])
            + CompileFrom(customs, rest, "")
  {
    ReadsFlag(customs, c, pad, HandleFlag(customs, c, pad), rest);
  }

  /** A flag that the end of the pattern cuts off is dropped, and its padding with it. */
  lemma UnfinishedIsDropped(customs: set<char>, text: string, pad: Padding)
    requires PadOk(pad) && '%' !in text
    ensures Compile(customs, text + ("%" + SpellPad(pad))) == Flush(text)
  {
    var s := "%" + SpellPad(pad);
    Collects(customs, text, s, "");
    assert "" + text == text;
    assert s[1..] == SpellPad(pad);
    NothingBehind(pad);
  }

  lemma NothingBehind(pad: Padding)
    requires PadOk(pad)
    ensures PadSpec(SpellPad(pad)).rest == ""
  {
    if pad.enabled {
      assert SpellPad(pad) + "" == SpellPad(pad);
      ReadsPad(pad, "");
    }
  }

  /** Of two flags with a shared formatter, either compiles to the same. */
  lemma SharedFlags(customs: set<char>, c: char, d: char, pad: Padding, rest: string)
    requires (c, d) in {('h', 'b'), ('x', 'D'), ('X', 'T')} && c !in customs && d !in customs && PadOk(pad)
    ensures CompileFrom(customs, "%" + SpellPad(pad) + [c] + rest, "")
         == CompileFrom(customs, "%" + SpellPad(pad) + [d] + rest, "")
  {
    ReadsFlag(customs, c, pad, [Flag(d, pad)], rest);
    ReadsFlag(customs, d, pad, [Flag(d, pad)], rest);
  }

  /** One readable element in front. */
  lemma ReadsOne(customs: set<char>, x: Formatter, rest: string)
    requires NormalOne(customs, x) && !x.Text?
    requires if x.Percent? then '%' !in customs else Clear(x)
    ensures CompileFrom(customs, SpellOne(x) + rest, "") == [x] + CompileFrom(customs, rest, "")
  {
    if x.Percent? {
      ReadsFlag(customs, '%', NO_PADDING, [x], rest);
      assert "%" + SpellPad(NO_PADDING) + ['%'] == SpellOne(x);
    } else {
      HandlesOwn(customs, x);
      ReadsFlag(customs, Letter(x), x.pad, [x], rest);
    }
  }

  lemma MarkSpelled(pad: Padding, rest: string)
    requires pad.enabled && !pad.truncate
    ensures SpellPad(pad) + "!" + rest == SpellPad(pad.(truncate := true)) + rest
  {
    assert WidthMark(pad.(truncate := true)) == WidthMark(pad) + "!";
    Regroup(SideMark(pad.side), WidthMark(pad), "!");
  }

  /** A padded '!' without a mark of its own gives its '!' away: the next character is the flag. */
  lemma MarkTaken(customs: set<char>, x: Formatter, rest: string)
    requires x.Flag? && x.flag == '!' && PadOk(x.pad) && x.pad.enabled && !x.pad.truncate
    ensures CompileFrom(customs, SpellOne(x) + rest, "") ==
            if rest == "" then []
            else HandleFlag(customs, rest[0], x.pad.(truncate := true)) + CompileFrom(customs, rest[1..], "")
  {
    var s, pad := SpellOne(x) + rest, x.pad.(truncate := true);
    MarkReads(x, rest);
    if rest != "" {
      CompilesFlag(customs, s, Spec(pad, rest), HandleFlag(customs, rest[0], pad));
    }
  }

  lemma MarkReads(x: Formatter, rest: string)
    requires x.Flag? && x.flag == '!' && PadOk(x.pad) && x.pad.enabled && !x.pad.truncate
    ensures var s := SpellOne(x) + rest;
            s != "" && s[0] == '%' && PadSpec(s[1..]) == Spec(x.pad.(truncate := true), rest)
  {
    MarkSpelled(x.pad, rest);
    BehindPercent(SpellPad(x.pad), "!", rest);
    ReadsPad(x.pad.(truncate := true), rest);
  }

  lemma BehindPercent(a: string, b: string, c: string)
    ensures var s := "%" + a + b + c; s != "" && s[0] == '%' && s[1..] == a + b + c
  {
  }

  /** A text in front, when no text follows. */
  lemma ReadsText(customs: set<char>, fs: seq<Formatter>)
    requires Normal(customs, fs) && fs != [] && fs[0].Text?
    ensures CompileFrom(customs, Spell(fs), "") == [fs[0]] + CompileFrom(customs, Spell(fs[1..]), "")
  {
    var t, rest := fs[0].chars, Spell(fs[1..]);
    Collects(customs, t, rest, "");
    assert "" + t == t;
    if fs[1..] != [] {
      assert fs[1..][0] == fs[1];
      assert NormalOne(customs, fs[1]) && !fs[1].Text?;
      assert rest[0] == '%';
    }
    Flushes(customs, rest, t);
  }

  lemma NormalTail(customs: set<char>, fs: seq<Formatter>)
    requires Normal(customs, fs) && fs != []
    ensures Normal(customs, fs[1..])
  {
    var tail := fs[1..];
    forall i | 0 <= i < |tail| ensures NormalOne(customs, tail[i]) { assert tail[i] == fs[i + 1]; }
    forall i | 0 < i < |tail| ensures !(tail[i - 1].Text? && tail[i].Text?) {
      assert tail[i - 1] == fs[i] && tail[i] == fs[i + 1];
    }
  }

  /** A repaired '!' and its one-character text, read together. */
  lemma ReadsRepaired(customs: set<char>, fs: seq<Formatter>)
    requires Normal(customs, fs) && fs != [] && Repaired(customs, fs[0], fs[1..])
    ensures CompileFrom(customs, Spell(fs), "") == [fs[0], fs[1]] + CompileFrom(customs, Spell(fs[2..]), "")
  {
    assert fs[1..][0] == fs[1] && fs[1..][1..] == fs[2..];
    var rest := Spell(fs[1..]);
    assert rest == fs[1].chars + Spell(fs[2..]);
    MarkTaken(customs, fs[0], rest);
    assert rest[1..] == Spell(fs[2..]);
    assert [rest[0]] == fs[1].chars;
    assert fs[0].pad.(truncate := true).(truncate := false) == fs[0].pad;
  }

  predicate AllReadable(customs: set<char>, fs: seq<Formatter>) {
    fs != [] ==> Readable(customs, fs[0], fs[1..]) && AllReadable(customs, fs[1..])
  }

  lemma BehindRepaired(customs: set<char>, fs: seq<Formatter>)
    requires Normal(customs, fs) && fs != [] && Repaired(customs, fs[0], fs[1..])
    ensures fs == [fs[0], fs[1]] + fs[2..] && Normal(customs, fs[2..])
    ensures AllReadable(customs, fs) <==> AllReadable(customs, fs[2..])
  {
    NormalTail(customs, fs);
    NormalTail(customs, fs[1..]);
    assert fs[1..][0] == fs[1] && fs[1..][1..] == fs[2..];
  }

  /** Round trip: spelling a readable normal list and compiling it gives the list back. */
  lemma {:induction false} RoundTrip(customs: set<char>, fs: seq<Formatter>)
    requires Normal(customs, fs) && AllReadable(customs, fs)
    ensures Compile(customs, Spell(fs)) == fs
    decreases |fs|
  {
    if fs != [] {
      NormalTail(customs, fs);
      assert NormalOne(customs, fs[0]);
      if fs[0].Text? {
        ReadsText(customs, fs);
        RoundTrip(customs, fs[1..]);
      } else if Repaired(customs, fs[0], fs[1..]) {
        BehindRepaired(customs, fs);
        ReadsRepaired(customs, fs);
        RoundTrip(customs, fs[2..]);
      } else {
        ReadsOne(customs, fs[0], Spell(fs[1..]));
        RoundTrip(customs, fs[1..]);
      }
    }
  }

  /** Custom flags that are neither side marks, digits, '!' nor '%'. */
  predicate Plain(customs: set<char>) {
    forall c :: c in customs ==> c != '-' && c != '=' && c != '!' && c != '%' && !IsDigit(c)
  }

  /** With plain custom flags the list comes back with no text split in two exactly when every
      padded, unmarked '!' is followed by a one-character text holding an unknown flag. */
  lemma {:induction false} UnsplitExactlyWhen(customs: set<char>, fs: seq<Formatter>)
    requires Plain(customs) && Normal(customs, fs)
    ensures Compile(customs, Spell(fs)) == fs <==> AllReadable(customs, fs)
    decreases |fs|
  {
    if fs != [] {
      NormalTail(customs, fs);
      assert NormalOne(customs, fs[0]);
      var x := fs[0];
      assert fs == [x] + fs[1..];
      if x.Text? {
        ReadsText(customs, fs);
        UnsplitExactlyWhen(customs, fs[1..]);
      } else if Repaired(customs, x, fs[1..]) {
        BehindRepaired(customs, fs);
        ReadsRepaired(customs, fs);
        UnsplitExactlyWhen(customs, fs[2..]);
      } else if x.Percent? || Clear(x) {
        ReadsOne(customs, x, Spell(fs[1..]));
        UnsplitExactlyWhen(customs, fs[1..]);
      } else {
        NotRepaired(customs, fs);
      }
    }
  }

  /** What a marked padding makes of a flag is not an unmarked '!', unless the flag is unknown. */
  lemma MadeOfMark(customs: set<char>, flag: char, pad: Padding)
    requires pad.truncate
    ensures var made := HandleFlag(customs, flag, pad);
            && made != []
            && (Unknown(customs, flag) ==> |made| == 2 && made[1] == Text([flag]))
            && (!Unknown(customs, flag) ==> made[0] != Flag('!', pad.(truncate := false)))
  {
  }

  /** A padded, unmarked '!' that is not repaired leaves another list. */
  lemma NotRepaired(customs: set<char>, fs: seq<Formatter>)
    requires Plain(customs) && Normal(customs, fs) && fs != [] && !fs[0].Text? && !fs[0].Percent?
    requires !Clear(fs[0]) && !Repaired(customs, fs[0], fs[1..])
    ensures Compile(customs, Spell(fs)) != fs
  {
    var x := fs[0];
    assert NormalOne(customs, x);
    PlainClear(customs, x);
    var rest := Spell(fs[1..]);
    MarkTaken(customs, x, rest);
    if fs[1..] != [] {
      var y := fs[1];
      assert fs[1..][0] == y && NormalOne(customs, y);
      var pad := x.pad.(truncate := true);
      assert pad.(truncate := false) == x.pad;
      MadeOfMark(customs, rest[0], pad);
      var all := Compile(customs, Spell(fs));
      var made := HandleFlag(customs, rest[0], pad);
      assert all[0] == made[0] && (|made| == 2 ==> all[1] == made[1]);
      if Unknown(customs, rest[0]) {
        assert y.Text? && rest[0] == y.chars[0];
      }
    }
  }

  lemma PlainClear(customs: set<char>, x: Formatter)
    requires Plain(customs) && NormalOne(customs, x) && !x.Text? && !x.Percent? && !Clear(x)
    ensures x.Flag? && x.flag == '!' && x.pad.enabled && !x.pad.truncate
  {
  }

  // ----- up to merging adjacent texts, which changes nothing that is written -----

  function Merged(fs: seq<Formatter>): seq<Formatter> {
    if fs == [] then []
    else
      var rest := Merged(fs[1..]);
      if fs[0].Text? && rest != [] && rest[0].Text? then [Text(fs[0].chars + rest[0].chars)] + rest[1..]
      else [fs[0]] + rest
  }

  /** The repair of a padded '!' keeps it whenever the text behind it starts with an unknown flag. */
  predicate Fixed(customs: set<char>, x: Formatter, next: seq<Formatter>) {
    && x.Flag? && x.flag == '!' && x.pad.enabled && !x.pad.truncate
    && next != [] && next[0].Text? && next[0].chars != "" && Unknown(customs, next[0].chars[0])
  }

  predicate Keeps(customs: set<char>, x: Formatter, next: seq<Formatter>) {
    match x
    case Text(_) => true
    case Percent => '%' !in customs
    case _ => Clear(x) || Fixed(customs, x, next)
  }

  predicate AllKept(customs: set<char>, fs: seq<Formatter>) {
    fs != [] ==> Keeps(customs, fs[0], fs[1..]) && AllKept(customs, fs[1..])
  }

  lemma MergedCons(x: Formatter, rest: seq<Formatter>)
    requires !x.Text? || rest == [] || !rest[0].Text?
    ensures Merged([x] + rest) == [x] + Merged(rest)
  {
    assert ([x] + rest)[1..] == rest;
  }

  lemma MergedTexts(s: string, t: string, rest: seq<Formatter>)
    requires rest == [] || !rest[0].Text?
    ensures Merged([Text(s)] + ([Text(t)] + rest)) == [Text(s + t)] + Merged(rest)
  {
    MergedCons(Text(t), rest);
    assert ([Text(s)] + ([Text(t)] + rest))[1..] == [Text(t)] + rest;
    assert ([Text(t)] + Merged(rest))[1..] == Merged(rest);
  }

  /** What an unrepaired '!' becomes is neither it nor a text. */
  lemma MarkMakes(customs: set<char>, fs: seq<Formatter>)
    requires Plain(customs) && Normal(customs, fs) && fs != [] && !fs[0].Text? && !fs[0].Percent?
    requires !Clear(fs[0]) && !Fixed(customs, fs[0], fs[1..])
    ensures var made := Compile(customs, Spell(fs)); made == [] || (!made[0].Text? && made[0] != fs[0])
  {
    var x := fs[0];
    assert NormalOne(customs, x);
    PlainClear(customs, x);
    var rest := Spell(fs[1..]);
    MarkTaken(customs, x, rest);
    if fs[1..] != [] {
      assert fs[1..][0] == fs[1] && NormalOne(customs, fs[1]);
      var pad := x.pad.(truncate := true);
      assert pad.(truncate := false) == x.pad;
      assert !Unknown(customs, rest[0]);
      MadeOfMark(customs, rest[0], pad);
      assert Compile(customs, Spell(fs))[0] == HandleFlag(customs, rest[0], pad)[0];
    }
  }

  /** A padded, unmarked '!' is gone unless the text behind it starts with an unknown flag. */
  lemma Lost(customs: set<char>, fs: seq<Formatter>)
    requires Plain(customs) && Normal(customs, fs) && fs != [] && !fs[0].Text? && !fs[0].Percent?
    requires !Clear(fs[0]) && !Fixed(customs, fs[0], fs[1..])
    ensures var made := Merged(Compile(customs, Spell(fs))); made == [] || made[0] != fs[0]
  {
    MarkMakes(customs, fs);
    MergedHead(Compile(customs, Spell(fs)));
  }

  lemma MergedHead(fs: seq<Formatter>)
    ensures fs == [] ==> Merged(fs) == []
    ensures fs != [] && !fs[0].Text? ==> Merged(fs) != [] && Merged(fs)[0] == fs[0]
  {
  }

  /** A fixed '!' and its text, which the compiler splits behind its first character. */
  lemma ReadsFixed(customs: set<char>, fs: seq<Formatter>)
    requires Normal(customs, fs) && fs != [] && Fixed(customs, fs[0], fs[1..])
    ensures var t := fs[1].chars;
            Compile(customs, Spell(fs)) == [fs[0], Text([t[0]])] + (Flush(t[1..]) + Compile(customs, Spell(fs[2..])))
  {
    assert fs[1..][0] == fs[1] && fs[1..][1..] == fs[2..];
    assert NormalOne(customs, fs[1]);
    var t, tail := fs[1].chars, Spell(fs[2..]);
    var rest := Spell(fs[1..]);
    assert rest == t + tail && rest[1..] == t[1..] + tail;
    MarkTaken(customs, fs[0], rest);
    assert fs[0].pad.(truncate := true).(truncate := false) == fs[0].pad;
    Collects(customs, t[1..], tail, "");
    assert "" + t[1..] == t[1..];
    if fs[2..] != [] {
      assert fs[2..][0] == fs[2] && NormalOne(customs, fs[2]) && !fs[2].Text?;
    }
    Flushes(customs, tail, t[1..]);
  }

  /** A list that starts with no text is read as one that starts with no text. */
  lemma NoTextFirst(customs: set<char>, fs: seq<Formatter>)
    requires Plain(customs) && Normal(customs, fs) && (fs != [] ==> !fs[0].Text?)
    ensures var made := Compile(customs, Spell(fs)); made == [] || !made[0].Text?
  {
    if fs != [] {
      assert NormalOne(customs, fs[0]);
      if fs[0].Percent? || Clear(fs[0]) {
        ReadsOne(customs, fs[0], Spell(fs[1..]));
      } else if Fixed(customs, fs[0], fs[1..]) {
        ReadsFixed(customs, fs);
      } else {
        MarkMakes(customs, fs);
      }
    }
  }

  lemma MergedFlush(c: char, u: string, tail: seq<Formatter>)
    requires tail == [] || !tail[0].Text?
    ensures Merged([Text([c])] + (Flush(u) + tail)) == [Text([c] + u)] + Merged(tail)
  {
    if u == "" {
      assert Flush(u) + tail == tail && [c] + u == [c];
      MergedCons(Text([c]), tail);
    } else {
      MergedTexts([c], u, tail);
    }
  }

  lemma MergedSplit(x: Formatter, t: string, tail: seq<Formatter>)
    requires !x.Text? && t != "" && (tail == [] || !tail[0].Text?)
    ensures Merged([x, Text([t[0]])] + (Flush(t[1..]) + tail)) == [x, Text(t)] + Merged(tail)
  {
    var behind := Flush(t[1..]) + tail;
    Two(x, Text([t[0]]), behind);
    MergedCons(x, [Text([t[0]])] + behind);
    MergedFlush(t[0], t[1..], tail);
    assert [t[0]] + t[1..] == t;
    Two(x, Text(t), Merged(tail));
  }

  lemma MergedFixed(customs: set<char>, fs: seq<Formatter>)
    requires Plain(customs) && Normal(customs, fs) && fs != [] && Fixed(customs, fs[0], fs[1..])
    ensures Merged(Compile(customs, Spell(fs))) == [fs[0], fs[1]] + Merged(Compile(customs, Spell(fs[2..])))
  {
    assert fs[1..][0] == fs[1];
    ReadsFixed(customs, fs);
    BehindFixed(customs, fs);
    MergedSplit(fs[0], fs[1].chars, Compile(customs, Spell(fs[2..])));
  }

  lemma BehindFixed(customs: set<char>, fs: seq<Formatter>)
    requires Plain(customs) && Normal(customs, fs) && |fs| >= 2 && fs[1].Text?
    ensures var made := Compile(customs, Spell(fs[2..])); made == [] || !made[0].Text?
  {
    NormalTail(customs, fs);
    NormalTail(customs, fs[1..]);
    assert fs[1..][1..] == fs[2..];
    assert fs[2..] != [] ==> fs[2..][0] == fs[2] && !fs[2].Text?;
    NoTextFirst(customs, fs[2..]);
  }

  /** With plain custom flags, up to merging adjacent texts, a normal list survives spelling and
      compiling exactly when every padded, unmarked '!' is followed by a text that starts with
      an unknown flag. */
  lemma {:induction false} RoundTripExactlyWhen(customs: set<char>, fs: seq<Formatter>)
    requires Plain(customs) && Normal(customs, fs)
    ensures Merged(Compile(customs, Spell(fs))) == fs <==> AllKept(customs, fs)
    decreases |fs|
  {
    if fs != [] {
      NormalTail(customs, fs);
      var x, rest := fs[0], fs[1..];
      assert NormalOne(customs, x) && fs == [x] + rest;
      if x.Text? {
        assert rest != [] ==> rest[0] == fs[1] && !fs[1].Text?;
        ReadsText(customs, fs);
        NoTextFirst(customs, rest);
        MergedCons(x, Compile(customs, Spell(rest)));
        RoundTripExactlyWhen(customs, rest);
      } else if Fixed(customs, x, rest) {
        FixedExactlyWhen(customs, fs);
        NormalTail(customs, rest);
        assert rest[1..] == fs[2..];
        RoundTripExactlyWhen(customs, fs[2..]);
      } else if x.Percent? || Clear(x) {
        ReadsOne(customs, x, Spell(rest));
        MergedCons(x, Compile(customs, Spell(rest)));
        RoundTripExactlyWhen(customs, rest);
      } else {
        Lost(customs, fs);
      }
    }
  }

  lemma FixedExactlyWhen(customs: set<char>, fs: seq<Formatter>)
    requires Plain(customs) && Normal(customs, fs) && fs != [] && Fixed(customs, fs[0], fs[1..])
    ensures Merged(Compile(customs, Spell(fs))) == fs <==> Merged(Compile(customs, Spell(fs[2..]))) == fs[2..]
    ensures AllKept(customs, fs) <==> AllKept(customs, fs[2..])
  {
    MergedFixed(customs, fs);
    assert fs == [fs[0], fs[1]] + fs[2..];
    assert fs[1..][0] == fs[1] && fs[1..][1..] == fs[2..];
  }

  // ----- three patterns -----

  lemma CompilesMain(x: Formatter, pad: Padding)
    requires x.Flag? && x.flag == '!' && PadOk(x.pad) && x.pad.enabled && !x.pad.truncate && pad == x.pad.(truncate := true)
    ensures CompileFrom({}, SpellOne(x) + "main", "") == [Flag('m', pad)] + CompileFrom({}, "ain", "")
  {
    MarkTaken({}, x, "main");
    assert "main"[0] == 'm' && "main"[1..] == "ain";
    assert IsFlag('m') && Canonical('m') == 'm';
  }

  lemma CompilesPlain(t: string)
    requires '%' !in t && t != ""
    ensures CompileFrom({}, t, "") == [Text(t)]
  {
    Collects({}, t, "", "");
    assert t + "" == t && "" + t == t;
  }

  /** A padded '!' in front of a letter that is a flag: "%10!main" is a month cut to ten columns
      and the text "ain". */
  lemma MarkBeforeMain()
    ensures var fs := [Flag('!', Padding(10, Left, false, true)), Text("main")];
            && !AllKept({}, fs)
            && Compile({}, Spell(fs)) == [Flag('m', Padding(10, Left, true, true)), Text("ain")]
  {
    var x, pad := Flag('!', Padding(10, Left, false, true)), Padding(10, Left, true, true);
    var fs := [x, Text("main")];
    assert fs[1..] == [Text("main")] && fs[1..][1..] == [];
    assert Spell(fs[1..]) == "main" by { assert "main" + "" == "main"; }
    assert IsFlag('m');
    CompilesMain(x, pad);
    CompilesPlain("ain");
  }

  /** The repair the compiler makes: in "[%10!] %v" the padded flag is kept. */
  lemma MarkBeforeBracket()
    ensures var fs := [Text("["), Flag('!', Padding(10, Left, false, true)), Text("] "), Flag('v', NO_PADDING)];
            Merged(Compile({}, Spell(fs))) == fs
  {
    var fs := [Text("["), Flag('!', Padding(10, Left, false, true)), Text("] "), Flag('v', NO_PADDING)];
    assert IsFlag('!') && IsFlag('v') && Unknown({}, ']');
    assert fs[1..] == [fs[1], fs[2], fs[3]] && fs[1..][1..] == [fs[2], fs[3]];
    assert fs[1..][1..][1..] == [fs[3]] && fs[1..][1..][1..][1..] == [];
    assert AllKept({}, fs[1..][1..][1..]);
    assert AllKept({}, fs[1..][1..]);
    assert AllKept({}, fs[1..]);
    RoundTripExactlyWhen({}, fs);
  }

  lemma NumeralRead(d: string, v: nat)
    requires d != "" && AllDigits(d) && Value(d) == v
    ensures PadSpec(d + "v") == Spec(Padding(Width(v), Left, false, true), "v")
  {
    var tail := d + "v";
    assert tail[..|d|] == d && tail[|d|..] == "v" && tail[0] == d[0];
    forall i | 0 <= i < |d| ensures IsDigit(tail[i]) { assert tail[i] == d[i]; }
    RunEnds(tail, |d|);
  }

  lemma WidthRead(v: nat)
    ensures Compile({}, "%" + Digits(v) + "v") == [Flag('v', Padding(Width(v), Left, false, true))]
  {
    ValueOfDigits(v);
    NumeralRead(Digits(v), v);
    WidthCompiled(Digits(v), Padding(Width(v), Left, false, true));
  }

  lemma WidthCompiled(d: string, pad: Padding)
    requires PadSpec(d + "v") == Spec(pad, "v")
    ensures Compile({}, "%" + d + "v") == [Flag('v', pad)]
  {
    var s := "%" + d + "v";
    assert s[1..] == d + "v";
    assert IsFlag('v') && Canonical('v') == 'v';
    CompilesFlag({}, s, Spec(pad, "v"), [Flag('v', pad)]);
    assert CompileFrom({}, "v"[1..], "") == [];
  }

  /** A width of 2^64 is a width of 0. */
  lemma WidthWraps(v: nat)
    requires v == SIZE_MOD
    ensures Compile({}, "%" + Digits(v) + "v") == [Flag('v', Padding(0, Left, false, true))]
  {
    WidthRead(v);
  }
}
