/**
 Calendar arithmetic: the ISO 8601 week functions of fmt and spdlog's closed-form
 difference of two broken-down times, both measured against a day count that goes year
 by year. Division and remainder truncate toward zero, as in C++.
 */
module Calendar {
  import Modulo

  function TruncDiv(a: int, b: int): int
    requires b > 0
  {
    if a >= 0 then a / b else -(-a / b)
  }

  function TruncMod(a: int, b: int): int
    requires b > 0
  {
    if a >= 0 then a % b else -(-a % b)
  }

  // ----- the reference: days counted year by year -----

  predicate IsLeap(y: int) { y % 4 == 0 && (y % 100 != 0 || y % 400 == 0) }

  function YearDays(y: int): nat { if IsLeap(y) then 366 else 365 }

  /** The number of days before 1 January of the year y; that of year 1 is day 0. */
  function DaysBefore(y: nat): nat
    requires y >= 1
  {
    if y == 1 then 0 else DaysBefore(y - 1) + YearDays(y - 1)
  }

  function Day(y: nat, yday: nat): nat
    requires y >= 1
  {
    DaysBefore(y) + yday
  }

  /** Day 0 is a Monday; Sunday is weekday 0. */
  function Weekday(day: nat): nat { (day + 1) % 7 }

  /** A consistent calendar day: the weekday and the day of the year belong to the year. */
  predicate ValidDate(y: int, yday: int, wday: int) {
    y >= 1 && 0 <= yday < YearDays(y) && wday == Weekday(Day(y, yday))
  }

  lemma {:induction false} DaysBeforeClosed(y: nat)
    requires y >= 1
    ensures DaysBefore(y) == 365 * (y - 1) + (y - 1) / 4 - (y - 1) / 100 + (y - 1) / 400
    decreases y
  {
    if y > 1 {
      DaysBeforeClosed(y - 1);
      LeapStep(y - 1);
    }
  }

  lemma DivStep(n: nat, d: nat)
    requires n >= 1 && d >= 1
    ensures n / d == (n - 1) / d + if n % d == 0 then 1 else 0
  {
    var q, r := n / d, n % d;
    if r == 0 {
      assert n - 1 == d * (q - 1) + (d - 1);
      Modulo.Unique(n - 1, d, q - 1, d - 1);
    } else {
      Modulo.Unique(n - 1, d, q, r - 1);
    }
  }

  lemma LeapStep(n: nat)
    requires n >= 1
    ensures n / 4 - n / 100 + n / 400 == (n - 1) / 4 - (n - 1) / 100 + (n - 1) / 400 + if IsLeap(n) then 1 else 0
  {
    DivStep(n, 4);
    DivStep(n, 100);
    DivStep(n, 400);
    LeapDivisors(n);
  }

  lemma LeapDivisors(n: nat)
    ensures (n % 400 == 0 ==> n % 100 == 0) && (n % 100 == 0 ==> n % 4 == 0)
  {
    if n % 100 == 0 { assert n == 4 * (25 * (n / 100)); }
    if n % 400 == 0 { assert n == 100 * (4 * (n / 400)); }
  }

  lemma {:induction false} DaysBeforeGrows(a: nat, b: nat)
    requires 1 <= a < b
    ensures DaysBefore(a) + YearDays(a) <= DaysBefore(b)
    decreases b
  {
    if a < b - 1 { DaysBeforeGrows(a, b - 1); }
  }

  /** A day lies in one year only. */
  lemma DayDeterminesDate(y: nat, yday: nat, y': nat, yday': nat)
    requires y >= 1 && y' >= 1 && yday < YearDays(y) && yday' < YearDays(y') && Day(y, yday) == Day(y', yday')
    ensures y == y' && yday == yday'
  {
    if y < y' { DaysBeforeGrows(y, y'); } else if y' < y { DaysBeforeGrows(y', y); }
  }

  // ----- the ISO week functions -----

  function YearShift(y: int): int {
    TruncMod(y + TruncDiv(y, 4) - TruncDiv(y, 100) + TruncDiv(y, 400), 7)
  }

  function IsoYearWeeks(y: int): int {
    52 + if YearShift(y) == 4 || YearShift(y - 1) == 3 then 1 else 0
  }

  function IsoWeekNum(yday: int, wday: int): int {
    TruncDiv(yday + 11 - (if wday == 0 then 7 else wday), 7)
  }

  function TmIsoWeekYear(y: int, yday: int, wday: int): int {
    var w := IsoWeekNum(yday, wday);
    if w < 1 then y - 1 else if w > IsoYearWeeks(y) then y + 1 else y
  }

  function TmIsoWeekOfYear(y: int, yday: int, wday: int): int {
    var w := IsoWeekNum(yday, wday);
    if w < 1 then IsoYearWeeks(y - 1) else if w > IsoYearWeeks(y) then 1 else w
  }

  /** The Thursday of the week a day belongs to; weeks begin on Monday. */
  function Thursday(day: nat): nat { day - day % 7 + 3 }

  /** The year and number that the Thursday gives the week (section 2.2.10 of ISO 8601:2004). */
  predicate IsIsoWeek(day: nat, year: int, week: int) {
    && year >= 1
    && DaysBefore(year) <= Thursday(day) < DaysBefore(year + 1)
    && week == (Thursday(day) - DaysBefore(year)) / 7 + 1
  }

  lemma Mod7(k: nat, x: nat)
    ensures (7 * k + x) % 7 == x % 7
  {
  }

  lemma YearShiftIsNextNewYear(y: nat)
    ensures YearShift(y) == DaysBefore(y + 1) % 7
  {
    DaysBeforeClosed(y + 1);
    var leaps := y / 4 - y / 100 + y / 400;
    assert leaps >= 0;
    Mod7(52 * y, y + leaps);
  }

  /** The first Thursday on or after a day. */
  function FirstThursday(day: nat): nat {
    day + (if day % 7 <= 3 then 3 - day % 7 else 10 - day % 7)
  }

  lemma ThursdaysInYear(newYear: nat, length: nat)
    requires length == 365 || length == 366
    ensures var first := FirstThursday(newYear);
            var weeks := 52 + if (newYear + length) % 7 == 4 || newYear % 7 == 3 then 1 else 0;
            first % 7 == 3 && first + 7 * (weeks - 1) < newYear + length <= first + 7 * weeks
  {
    var d := newYear % 7;
    FirstIsThursday(newYear);
    assert newYear == 7 * (newYear / 7) + d;
    Mod7(newYear / 7 + 52, d + length - 364);
  }

  /** iso_year_weeks is the number of Thursdays of the year. */
  lemma WeeksAreThursdays(y: nat)
    requires y >= 1
    ensures var first := FirstThursday(DaysBefore(y));
            && first % 7 == 3 && DaysBefore(y) <= first < DaysBefore(y) + 7
            && first + 7 * (IsoYearWeeks(y) - 1) < DaysBefore(y + 1) <= first + 7 * IsoYearWeeks(y)
  {
    YearShiftIsNextNewYear(y);
    YearShiftIsNextNewYear(y - 1);
    ThursdaysInYear(DaysBefore(y), YearDays(y));
  }

  lemma WeekdayOf(day: nat)
    ensures Weekday(day) == if day % 7 == 6 then 0 else day % 7 + 1
  {
    var q, r := day / 7, day % 7;
    if r == 6 { Modulo.Unique(day + 1, 7, q + 1, 0); } else { Modulo.Unique(day + 1, 7, q, r + 1); }
  }

  /** How far into the year the Thursday of a week lies, told by iso_week_num. */
  lemma WeekNumTells(y: nat, yday: nat, wday: int)
    requires ValidDate(y, yday, wday)
    ensures var t := Thursday(Day(y, yday)) - DaysBefore(y);
            IsoWeekNum(yday, wday) == (t + 7) / 7 && -3 <= t <= yday + 3
  {
    var day := Day(y, yday);
    WeekdayOf(day);
    assert IsoWeekNum(yday, wday) == TruncDiv(yday - day % 7 + 10, 7);
  }

  /** Two Thursdays are whole weeks apart, and the later one's week number counts them. */
  lemma WeekOfThursday(start: nat, first: nat, th: nat) returns (j: int)
    requires start <= first < start + 7 && first % 7 == 3 && th % 7 == 3
    ensures th == first + 7 * j
    ensures th >= start ==> (th - start) / 7 == j
  {
    j := th / 7 - first / 7;
    assert th == 7 * (th / 7) + 3 && first == 7 * (first / 7) + 3;
  }

  /** Every consistent date gets the year and number of the week its Thursday decides, and
      the number is one that year has. */
  lemma IsoWeekIsRight(y: nat, yday: nat, wday: int)
    requires ValidDate(y, yday, wday)
    ensures IsIsoWeek(Day(y, yday), TmIsoWeekYear(y, yday, wday), TmIsoWeekOfYear(y, yday, wday))
    ensures 1 <= TmIsoWeekOfYear(y, yday, wday) <= IsoYearWeeks(TmIsoWeekYear(y, yday, wday))
  {
    ThursdayIsOne(Day(y, yday));
    if Thursday(Day(y, yday)) < DaysBefore(y) {
      WeekOfLastYear(y, yday, wday);
    } else {
      WeekFromNewYear(y, yday, wday);
    }
  }

  /** A Thursday in the last days of a year is in its last week. */
  lemma LastWeek(y: nat, th: nat)
    requires y >= 1 && th % 7 == 3 && DaysBefore(y + 1) - 3 <= th < DaysBefore(y + 1)
    ensures (th - DaysBefore(y)) / 7 + 1 == IsoYearWeeks(y)
  {
    WeeksAreThursdays(y);
    var j := WeekOfThursday(DaysBefore(y), FirstThursday(DaysBefore(y)), th);
  }

  lemma WeekOfLastYear(y: nat, yday: nat, wday: int)
    requires ValidDate(y, yday, wday) && Thursday(Day(y, yday)) < DaysBefore(y) && Thursday(Day(y, yday)) % 7 == 3
    ensures IsIsoWeek(Day(y, yday), TmIsoWeekYear(y, yday, wday), TmIsoWeekOfYear(y, yday, wday))
    ensures 1 <= TmIsoWeekOfYear(y, yday, wday) <= IsoYearWeeks(TmIsoWeekYear(y, yday, wday))
  {
    WeekNumTells(y, yday, wday);
    assert y >= 2;
    LastWeek(y - 1, Thursday(Day(y, yday)));
  }

  /** From the first Thursday on, iso_week_num counts the weeks, and passes iso_year_weeks
      exactly when the Thursday lies in the next year. */
  lemma WeekNumCounts(y: nat, yday: nat, wday: int)
    requires ValidDate(y, yday, wday) && Thursday(Day(y, yday)) >= DaysBefore(y) && Thursday(Day(y, yday)) % 7 == 3
    ensures var th := Thursday(Day(y, yday));
            && IsoWeekNum(yday, wday) == (th - DaysBefore(y)) / 7 + 1
            && (IsoWeekNum(yday, wday) > IsoYearWeeks(y) <==> th >= DaysBefore(y + 1))
  {
    WeekNumTells(y, yday, wday);
    WeeksAreThursdays(y);
    var j := WeekOfThursday(DaysBefore(y), FirstThursday(DaysBefore(y)), Thursday(Day(y, yday)));
  }

  lemma WeekFromNewYear(y: nat, yday: nat, wday: int)
    requires ValidDate(y, yday, wday) && Thursday(Day(y, yday)) >= DaysBefore(y) && Thursday(Day(y, yday)) % 7 == 3
    ensures IsIsoWeek(Day(y, yday), TmIsoWeekYear(y, yday, wday), TmIsoWeekOfYear(y, yday, wday))
    ensures 1 <= TmIsoWeekOfYear(y, yday, wday) <= IsoYearWeeks(TmIsoWeekYear(y, yday, wday))
  {
    WeekNumCounts(y, yday, wday);
    assert Thursday(Day(y, yday)) <= Day(y, yday) + 3;
    assert DaysBefore(y + 2) == DaysBefore(y + 1) + YearDays(y + 1);
  }

  lemma ThursdayIsOne(day: nat)
    ensures Thursday(day) % 7 == 3
  {
    assert day == 7 * (day / 7) + day % 7;
    Mod7(day / 7, 3);
  }

  lemma SameWeekSameThursday(start: nat, th: nat, th': nat, week: int, d: nat, d': nat)
    requires th == Thursday(d) && th' == Thursday(d') && th >= start && th' >= start
    requires week == (th - start) / 7 + 1 && week == (th' - start) / 7 + 1
    ensures th == th'
  {
    ThursdayIsOne(d);
    ThursdayIsOne(d');
    var first := FirstThursday(start);
    FirstIsThursday(start);
    var j := WeekOfThursday(start, first, th);
    var j' := WeekOfThursday(start, first, th');
  }

  lemma FirstIsThursday(day: nat)
    ensures FirstThursday(day) % 7 == 3 && day <= FirstThursday(day) < day + 7
  {
    var q, r := day / 7, day % 7;
    if r <= 3 { Modulo.Unique(FirstThursday(day), 7, q, 3); } else { Modulo.Unique(FirstThursday(day), 7, q + 1, 3); }
  }

  /** Year, week and weekday determine the date. */
  lemma IsoWeekDeterminesDate(y: nat, yday: nat, y': nat, yday': nat, wday: int)
    requires ValidDate(y, yday, wday) && ValidDate(y', yday', wday)
    requires TmIsoWeekYear(y, yday, wday) == TmIsoWeekYear(y', yday', wday)
    requires TmIsoWeekOfYear(y, yday, wday) == TmIsoWeekOfYear(y', yday', wday)
    ensures y == y' && yday == yday'
  {
    IsoWeekIsRight(y, yday, wday);
    IsoWeekIsRight(y', yday', wday);
    var d, d' := Day(y, yday), Day(y', yday');
    var year := TmIsoWeekYear(y, yday, wday);
    SameWeekSameThursday(DaysBefore(year), Thursday(d), Thursday(d'), TmIsoWeekOfYear(y, yday, wday), d, d');
    WeekdayOf(d);
    WeekdayOf(d');
    DayDeterminesDate(y, yday, y', yday');
  }

  // ----- the difference of two times -----

  datatype Time = Time(year: int, yday: int, hour: int, min: int, sec: int)

  /** calculate_gmt_offset; >> 2 rounds down. */
  function GmtOffset(local: Time, gmt: Time): int {
    var localYear, gmtYear := local.year - 1, gmt.year - 1;
    var days := local.yday - gmt.yday
                + (localYear / 4 - gmtYear / 4) - (TruncDiv(localYear, 100) - TruncDiv(gmtYear, 100))
                + (TruncDiv(localYear, 100) / 4 - TruncDiv(gmtYear, 100) / 4)
                + (localYear - gmtYear) * 365;
    var hours := 24 * days + (local.hour - gmt.hour);
    var mins := 60 * hours + (local.min - gmt.min);
    60 * mins + (local.sec - gmt.sec)
  }

  /** Seconds since the beginning of year 1. */
  function Seconds(t: Time): int
    requires t.year >= 1
  {
    60 * (60 * (24 * (DaysBefore(t.year) + t.yday) + t.hour) + t.min) + t.sec
  }

  lemma GmtOffsetIsExact(local: Time, gmt: Time)
    requires local.year >= 1 && gmt.year >= 1
    ensures GmtOffset(local, gmt) == Seconds(local) - Seconds(gmt)
  {
    DaysBeforeClosed(local.year);
    DaysBeforeClosed(gmt.year);
    QuarterOfCentury(local.year - 1);
    QuarterOfCentury(gmt.year - 1);
    assert 60 * (60 * (24 * (DaysBefore(local.year) - DaysBefore(gmt.year) + local.yday - gmt.yday)))
           == 86400 * (DaysBefore(local.year) - DaysBefore(gmt.year) + local.yday - gmt.yday);
  }

  lemma QuarterOfCentury(n: nat)
    ensures n / 100 / 4 == n / 400
  {
    var q, r := n / 100, n % 100;
    Modulo.Unique(n, 400, q / 4, 100 * (q % 4) + r);
  }
}
