/** The texts of the date flags, '%z' aside, and the lengths their formatters announce. */
module DateFlags {
  import opened Decimal
  import opened FullReading
  import opened Options
  import opened Padder
  import opened Pattern
  import opened PatternFormatter
  import Calendar

  const DAYS: seq<string> := ["Sun", "Mon", "Tue", "Wed", "Thu", "Fri", "Sat"]

  const FULL_DAYS: seq<string> :=
    ["Sunday", "Monday", "Tuesday", "Wednesday", "Thursday", "Friday", "Saturday"]

  const MONTHS: seq<string> :=
    ["Jan", "Feb", "Mar", "Apr", "May", "Jun", "Jul", "Aug", "Sept", "Oct", "Nov", "Dec"]

  const FULL_MONTHS: seq<string> :=
    ["January", "February", "March", "April", "May", "June", "July", "August", "September", "October", "November",
     "December"]

  /** The fields the program uses as indices into the tables of names. */
  predicate Named(tm: Tm) { 0 <= tm.wday <= 6 && 0 <= tm.mon <= 11 }

  function AmPm(tm: Tm): string { if tm.hour >= 12 then "PM" else "AM" }

  function To12h(tm: Tm): int { if tm.hour > 12 then tm.hour - 12 else tm.hour }

  function Clock(hour: int, tm: Tm): string { Pad2(hour) + ":" + Pad2(tm.min) + ":" + Pad2(tm.sec) }

  /** What the formatter of a flag writes of the date; None for flags that write nothing of it. */
  function DateField(flag: char, tm: Tm): Option<string>
    requires Named(tm)
  {
    match flag
    case 'a' => Some(DAYS[tm.wday])
    case 'A' => Some(FULL_DAYS[tm.wday])
    case 'b' => Some(MONTHS[tm.mon])
    case 'B' => Some(FULL_MONTHS[tm.mon])
    case 'c' =>
      Some(DAYS[tm.wday] + " " + MONTHS[tm.mon] + " " + IntText(tm.mday) + " " + Clock(tm.hour, tm) + " "
           + IntText(tm.year + 1900))
    case 'C' => Some(Pad2(Calendar.TruncMod(tm.year, 100)))
    case 'Y' => Some(IntText(tm.year + 1900))
    case 'D' => Some(Pad2(tm.mon + 1) + "/" + Pad2(tm.mday) + "/" + Pad2(Calendar.TruncMod(tm.year, 100)))
    case 'm' => Some(Pad2(tm.mon + 1))
    case 'd' => Some(Pad2(tm.mday))
    case 'H' => Some(Pad2(tm.hour))
    case 'I' => Some(Pad2(To12h(tm)))
    case 'M' => Some(Pad2(tm.min))
    case 'S' => Some(Pad2(tm.sec))
    case 'p' => Some(AmPm(tm))
    case 'r' => Some(Clock(To12h(tm), tm) + " " + AmPm(tm))
    case 'R' => Some(Pad2(tm.hour) + ":" + Pad2(tm.min))
    case 'T' => Some(Clock(tm.hour, tm))
    case _ => None
  }

  /** The length a formatter announces to the padder. */
  function AnnouncedSize(flag: char, tm: Tm): nat
    requires Named(tm)
  {
    match flag
    case 'a' => |DAYS[tm.wday]|
    case 'A' => |FULL_DAYS[tm.wday]|
    case 'b' => |MONTHS[tm.mon]|
    case 'B' => |FULL_MONTHS[tm.mon]|
    case 'c' => 24
    case 'Y' => 4
    case 'D' => 10
    case 'r' => 11
    case 'R' => 5
    case 'T' => 8
    case _ => 2
  }

  // ----- which flags read the date -----

  /** Two dates that differ in every field. */
  const ONE := Tm(1, 1, 1, 1, 1, 101, 1, 1)
  const OTHER := Tm(2, 2, 14, 2, 2, 102, 2, 2)

  /** need_localtime_ is asked for by exactly the flags whose text differs for different dates,
      and by '%z'. */
  lemma DatedExactlyWhen(flag: char)
    ensures IsDated(flag) <==> flag == 'z' || exists a, b ::
              Named(a) && Named(b) && DateField(Canonical(flag), a) != DateField(Canonical(flag), b)
  {
    if IsDated(flag) && flag != 'z' {
      DatesDiffer(Canonical(flag));
      assert Named(ONE) && Named(OTHER);
    }
  }

  lemma DatesDiffer(flag: char)
    requires IsDated(flag) && flag != 'z' && Canonical(flag) == flag
    ensures DateField(flag, ONE) != DateField(flag, OTHER)
  {
    if flag in {'a', 'A', 'b', 'B', 'p'} {
      NamesDiffer(flag);
    } else if flag == 'Y' {
      DigitsDiffer(2001, 2002);
    } else if flag == 'c' {
      LongDiffers();
    } else {
      NumbersDiffer(flag);
    }
  }

  lemma LongDiffers()
    ensures DateField('c', ONE) != DateField('c', OTHER)
  {
    StartsWithDay(ONE);
    StartsWithDay(OTHER);
    assert "Mon"[0] != "Tue"[0];
  }

  lemma StartsWithDay(tm: Tm)
    requires Named(tm)
    ensures var s := DateField('c', tm).value; s != "" && s[0] == DAYS[tm.wday][0]
  {
  }

  lemma NamesDiffer(flag: char)
    requires flag in {'a', 'A', 'b', 'B', 'p'}
    ensures DateField(flag, ONE) != DateField(flag, OTHER)
  {
    assert "Mon"[0] != "Tue"[0] && "Monday"[0] != "Tuesday"[0] && "Feb"[0] != "Mar"[0];
    assert "February"[0] != "March"[0] && "AM"[0] != "PM"[0];
  }

  lemma DigitsDiffer(a: nat, b: nat)
    requires a != b
    ensures Digits(a) != Digits(b)
  {
    if Digits(a) == Digits(b) { DigitsInjective(a, b); }
  }

  lemma NumbersDiffer(flag: char)
    requires flag in {'C', 'D', 'm', 'd', 'H', 'I', 'M', 'S', 'r', 'R', 'T'}
    ensures DateField(flag, ONE) != DateField(flag, OTHER)
  {
    var one, other := DateField(flag, ONE).value, DateField(flag, OTHER).value;
    var n := if flag in {'D', 'm'} then 2 else 1;
    var m := if flag in {'D', 'm'} then 3 else if flag in {'H', 'R', 'T'} then 14 else 2;
    TwoDigits(n);
    TwoDigits(m);
    StartsWith(flag, one, n);
    StartsWith(flag, other, m);
    assert Pad2(n) != Pad2(m);
  }

  lemma StartsWith(flag: char, s: string, n: int)
    requires flag in {'C', 'D', 'm', 'd', 'H', 'I', 'M', 'S', 'r', 'R', 'T'} && 0 <= n < 100
    requires exists tm :: tm in {ONE, OTHER} && DateField(flag, tm) == Some(s) && n == Leading(flag, tm)
    ensures |s| >= 2 && s[..2] == Pad2(n)
  {
    TwoDigits(n);
  }

  /** The number a text of digits starts with. */
  function Leading(flag: char, tm: Tm): int {
    match flag
    case 'C' => Calendar.TruncMod(tm.year, 100)
    case 'D' => tm.mon + 1
    case 'm' => tm.mon + 1
    case 'd' => tm.mday
    case 'I' => To12h(tm)
    case 'M' => tm.min
    case 'S' => tm.sec
    case 'r' => To12h(tm)
    case _ => tm.hour
  }

  // ----- the twelve-hour clock -----

  /** %I and %p together tell the hour. */
  lemma TwelveHoursTell(a: Tm, b: Tm)
    requires 0 <= a.hour <= 23 && 0 <= b.hour <= 23
    requires Pad2(To12h(a)) == Pad2(To12h(b)) && AmPm(a) == AmPm(b)
    ensures a.hour == b.hour
  {
    TwoDigits(To12h(a));
    TwoDigits(To12h(b));
    assert "AM"[0] != "PM"[0];
  }

  /** The hour of %I is between 1 and 12, as its comment says, except after midnight. */
  lemma TwelveExactlyWhen(tm: Tm)
    requires 0 <= tm.hour <= 23
    ensures 1 <= To12h(tm) <= 12 <==> tm.hour != 0
    ensures tm.hour == 0 ==> To12h(tm) == 0
  {
  }

  lemma MidnightIsZero()
    ensures Named(ZERO_TM) && DateField('I', ZERO_TM) == Some("00")
  {
    assert Pad2(0) == "00";
  }

  // ----- padded date flags -----

  lemma PadTwo(tm: Tm)
    requires InRange(tm)
    ensures |Pad2(tm.mon + 1)| == 2 && |Pad2(tm.mday)| == 2 && |Pad2(tm.hour)| == 2 && |Pad2(tm.min)| == 2
    ensures |Pad2(tm.sec)| == 2 && |Pad2(To12h(tm))| == 2 && |IntText(tm.year + 1900)| == 4
  {
    FourDigits(tm.year + 1900);
    LengthTwo(tm.mon + 1);
    LengthTwo(tm.mday);
    LengthTwo(tm.hour);
    LengthTwo(tm.min);
    LengthTwo(tm.sec);
    LengthTwo(To12h(tm));
  }

  /** For dates from 1900 on, a formatter announces the length of its text, except that of %D,
      which is eight characters long and not ten, and that of %c, whose month and day must take
      five characters together. */
  lemma SizeExactlyWhen(flag: char, tm: Tm)
    requires Named(tm) && InRange(tm) && tm.year >= 0 && DateField(flag, tm).Some?
    ensures |DateField(flag, tm).value| == AnnouncedSize(flag, tm)
       <==> flag != 'D' && (flag == 'c' ==> |MONTHS[tm.mon]| + |IntText(tm.mday)| == 5)
  {
    if flag == 'c' {
      LongLength(tm);
    } else if flag in {'D', 'r', 'R', 'T'} {
      JoinedLength(flag, tm);
    } else if flag !in {'a', 'A', 'b', 'B'} {
      NumberLength(flag, tm);
    }
  }

  lemma NumberLength(flag: char, tm: Tm)
    requires Named(tm) && InRange(tm) && tm.year >= 0 && flag in {'C', 'Y', 'm', 'd', 'H', 'I', 'M', 'S', 'p'}
    ensures |DateField(flag, tm).value| == if flag == 'Y' then 4 else 2
  {
    if flag == 'Y' {
      FourDigits(tm.year + 1900);
    } else if flag != 'p' {
      LengthTwo(Leading(flag, tm));
      assert DateField(flag, tm) == Some(Pad2(Leading(flag, tm)));
    }
  }

  lemma LengthTwo(n: int)
    requires 0 <= n < 100
    ensures |Pad2(n)| == 2
  {
    TwoDigits(n);
  }

  lemma JoinedLength(flag: char, tm: Tm)
    requires Named(tm) && InRange(tm) && tm.year >= 0 && flag in {'D', 'r', 'R', 'T'}
    ensures |DateField(flag, tm).value| == if flag == 'r' then 11 else if flag == 'R' then 5 else 8
  {
    PadTwo(tm);
    if flag == 'D' {
      LengthTwo(Calendar.TruncMod(tm.year, 100));
      ShortLength(Pad2(tm.mon + 1), Pad2(tm.mday), Pad2(Calendar.TruncMod(tm.year, 100)));
    } else if flag == 'r' {
      ClockLength(To12h(tm), tm);
    } else if flag == 'T' {
      ClockLength(tm.hour, tm);
    }
  }

  lemma ShortLength(m: string, d: string, y: string)
    requires |m| == 2 && |d| == 2 && |y| == 2
    ensures |m + "/" + d + "/" + y| == 8
  {
  }

  lemma ClockLength(hour: int, tm: Tm)
    requires |Pad2(hour)| == 2 && |Pad2(tm.min)| == 2 && |Pad2(tm.sec)| == 2
    ensures |Clock(hour, tm)| == 8
  {
  }

  lemma LongLength(tm: Tm)
    requires Named(tm) && InRange(tm)
    ensures |DateField('c', tm).value| == 19 + |MONTHS[tm.mon]| + |IntText(tm.mday)|
  {
    LongParts(DAYS[tm.wday], MONTHS[tm.mon], IntText(tm.mday), Clock(tm.hour, tm), IntText(tm.year + 1900));
    LongPartLengths(tm);
  }

  lemma LongParts(a: string, b: string, c: string, d: string, e: string)
    ensures |a + " " + b + " " + c + " " + d + " " + e| == |a| + |b| + |c| + |d| + |e| + 4
  {
  }

  lemma LongPartLengths(tm: Tm)
    requires Named(tm) && InRange(tm)
    ensures |DAYS[tm.wday]| == 3 && |Clock(tm.hour, tm)| == 8 && |IntText(tm.year + 1900)| == 4
  {
    PadTwo(tm);
    ClockLength(tm.hour, tm);
  }

  /** So a padded date comes out right for every padding, %D and %c aside. */
  lemma PaddedRight(buffer: string, flag: char, tm: Tm, pad: Padding)
    requires Named(tm) && InRange(tm) && tm.year >= 0 && DateField(flag, tm).Some? && flag != 'D'
    requires flag == 'c' ==> |MONTHS[tm.mon]| + |IntText(tm.mday)| == 5
    ensures var text := DateField(flag, tm).value;
            Announced(buffer, AnnouncedSize(flag, tm), text, pad) == Some(buffer + Field(text, pad))
  {
    SizeExactlyWhen(flag, tm);
    RightExactlyWhen(buffer, AnnouncedSize(flag, tm), DateField(flag, tm).value, pad);
  }
}
