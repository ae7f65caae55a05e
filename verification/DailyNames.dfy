/**
 Names of the files a daily rolling appender archives: the default date pattern of
 each schedule, and the proof that it tells periods apart.
 */
module DailyNames {
  import opened Decimals
  import opened Files
  import opened Calendar
  import opened Schedule

  /** %m, %d, %H, %M, %W. */
  function TwoDigits(n: int): string
    requires 0 <= n < 100
  {
    [Digit(n / 10), Digit(n % 10)]
  }

  /** %Y. */
  function Year(y: int): string {
    if y < 0 then "-" + Decimal(-y) else Decimal(y)
  }

  /** %W: weeks of the year, starting on Mondays; yday counts from zero. */
  function WeekOfYear(yday: int, wday: int): (week: int)
    requires 0 <= yday < 372 && 0 <= wday < 7
    ensures 0 <= week <= 54
  {
    (yday + 7 - (wday + 6) % 7) / 7
  }

  ghost function Month(tm: Tm): string
    requires 0 <= tm.mon < 12
  {
    Year(tm.year) + ("-" + TwoDigits(tm.mon + 1))
  }

  ghost function Date(tm: Tm): string
    requires 0 <= tm.mon < 12 && 0 < tm.mday < 100
  {
    Month(tm) + ("-" + TwoDigits(tm.mday))
  }

  lemma FieldRanges(ms: Months, t: int, offset: int)
    requires IsCalendar(ms)
    ensures var tm := LocalTime(ms, t, offset);
            && 0 <= tm.mon < 12 && 0 < tm.mday <= 31 && 0 <= tm.hour < 24 && 0 <= tm.min < 60
            && 0 <= tm.wday < 7 && 0 <= (t + offset) / DAY - ms(12 * tm.year) < 372
  {
    var k := MonthOf(ms, (t + offset) / DAY);
    assert MonthOk(ms, k);
    assert k == 12 * (k / 12) + k % 12;
    MonthsApart(ms, 12 * (k / 12), k % 12);
  }

  /** The text that strftime makes of the default pattern, in the C locale. */
  ghost function DefaultDate(ms: Months, s: Schedule, t: int, offset: int): string
    requires IsCalendar(ms)
  {
    FieldRanges(ms, t, offset);
    var tm := LocalTime(ms, t, offset);
    match s
    case Monthly => Month(tm)
    case Weekly =>
      Year(tm.year) + ("-" + TwoDigits(WeekOfYear((t + offset) / DAY - ms(12 * tm.year), tm.wday)))
    case Daily => Date(tm)
    case TwiceDaily => Date(tm) + (if tm.hour < 12 then "-AM" else "-PM")
    case Hourly => Date(tm) + ("-" + TwoDigits(tm.hour))
    case Minutely => Date(tm) + ("-" + TwoDigits(tm.hour)) + ("-" + TwoDigits(tm.min))
  }

  // ----- Injectivity -----

  lemma Tails(a: string, x: string, b: string, y: string)
    requires |x| == |y| && a + x == b + y
    ensures a == b && x == y
  {
    assert a == (a + x)[..|a|] && b == (b + y)[..|b|];
    assert x == (a + x)[|a|..] && y == (b + y)[|b|..];
  }

  lemma TwoDigitsInjective(m: int, n: int)
    requires 0 <= m < 100 && 0 <= n < 100 && "-" + TwoDigits(m) == "-" + TwoDigits(n)
    ensures m == n
  {
    var a, b := "-" + TwoDigits(m), "-" + TwoDigits(n);
    assert a[1] == Digit(m / 10) && b[1] == Digit(n / 10) && a[2] == Digit(m % 10) && b[2] == Digit(n % 10);
  }

  lemma YearInjective(y: int, z: int)
    requires Year(y) == Year(z)
    ensures y == z
  {
    assert (Year(y)[0] == '-' <==> y < 0) && (Year(z)[0] == '-' <==> z < 0);
    if y < 0 {
      assert Decimal(-y) == Year(y)[1..] && Decimal(-z) == Year(z)[1..];
      DecimalInjective(-y, -z);
    } else {
      DecimalInjective(y, z);
    }
  }

  lemma MonthInjective(a: Tm, b: Tm)
    requires 0 <= a.mon < 12 && 0 <= b.mon < 12 && Month(a) == Month(b)
    ensures a.year == b.year && a.mon == b.mon
  {
    Tails(Year(a.year), "-" + TwoDigits(a.mon + 1), Year(b.year), "-" + TwoDigits(b.mon + 1));
    TwoDigitsInjective(a.mon + 1, b.mon + 1);
    YearInjective(a.year, b.year);
  }

  lemma DateInjective(a: Tm, b: Tm)
    requires 0 <= a.mon < 12 && 0 <= b.mon < 12 && 0 < a.mday < 100 && 0 < b.mday < 100 && Date(a) == Date(b)
    ensures a.year == b.year && a.mon == b.mon && a.mday == b.mday
  {
    Tails(Month(a), "-" + TwoDigits(a.mday), Month(b), "-" + TwoDigits(b.mday));
    TwoDigitsInjective(a.mday, b.mday);
    MonthInjective(a, b);
  }

  lemma SameDay(ms: Months, t: int, u: int, offset: int)
    requires IsCalendar(ms)
    ensures var a, b := LocalTime(ms, t, offset), LocalTime(ms, u, offset);
            (a.year == b.year && a.mon == b.mon && a.mday == b.mday) <==> (t + offset) / DAY == (u + offset) / DAY
  {
    var j, k := MonthOf(ms, (t + offset) / DAY), MonthOf(ms, (u + offset) / DAY);
    assert j == 12 * (j / 12) + j % 12 && k == 12 * (k / 12) + k % 12;
  }

  lemma MinutesOfDay(local: int)
    ensures local / 60 == 1440 * (local / DAY) + local % DAY / 3600 * 60 + local % DAY % 3600 / 60
  {
    var s := local % DAY;
    ClockFields(s);
    var q := 1440 * (local / DAY) + s / 3600 * 60 + s % 3600 / 60;
    assert local == 60 * q + s % 60;
  }

  lemma MonthName(ms: Months, t: int, u: int, offset: int)
    requires IsCalendar(ms)
    ensures DefaultDate(ms, Monthly, t, offset) == DefaultDate(ms, Monthly, u, offset)
            <==> PeriodOf(ms, Monthly, t, offset) == PeriodOf(ms, Monthly, u, offset)
  {
    FieldRanges(ms, t, offset);
    FieldRanges(ms, u, offset);
    var j, k := MonthOf(ms, (t + offset) / DAY), MonthOf(ms, (u + offset) / DAY);
    assert j == 12 * (j / 12) + j % 12 && k == 12 * (k / 12) + k % 12;
    if DefaultDate(ms, Monthly, t, offset) == DefaultDate(ms, Monthly, u, offset) {
      MonthInjective(LocalTime(ms, t, offset), LocalTime(ms, u, offset));
    }
  }

  lemma DayName(ms: Months, t: int, u: int, offset: int)
    requires IsCalendar(ms)
    ensures DefaultDate(ms, Daily, t, offset) == DefaultDate(ms, Daily, u, offset)
            <==> PeriodOf(ms, Daily, t, offset) == PeriodOf(ms, Daily, u, offset)
  {
    FieldRanges(ms, t, offset);
    FieldRanges(ms, u, offset);
    SameDay(ms, t, u, offset);
    if DefaultDate(ms, Daily, t, offset) == DefaultDate(ms, Daily, u, offset) {
      DateInjective(LocalTime(ms, t, offset), LocalTime(ms, u, offset));
    }
  }

  lemma HalfDayName(ms: Months, t: int, u: int, offset: int)
    requires IsCalendar(ms)
    ensures DefaultDate(ms, TwiceDaily, t, offset) == DefaultDate(ms, TwiceDaily, u, offset)
            <==> PeriodOf(ms, TwiceDaily, t, offset) == PeriodOf(ms, TwiceDaily, u, offset)
  {
    DayName(ms, t, u, offset);
    HalfDays(t + offset);
    HalfDays(u + offset);
    if DefaultDate(ms, TwiceDaily, t, offset) == DefaultDate(ms, TwiceDaily, u, offset) {
      Tails(DefaultDate(ms, Daily, t, offset), if LocalTime(ms, t, offset).hour < 12 then "-AM" else "-PM",
            DefaultDate(ms, Daily, u, offset), if LocalTime(ms, u, offset).hour < 12 then "-AM" else "-PM");
    }
  }

  lemma HourName(ms: Months, t: int, u: int, offset: int)
    requires IsCalendar(ms)
    ensures DefaultDate(ms, Hourly, t, offset) == DefaultDate(ms, Hourly, u, offset)
            <==> PeriodOf(ms, Hourly, t, offset) == PeriodOf(ms, Hourly, u, offset)
  {
    FieldRanges(ms, t, offset);
    FieldRanges(ms, u, offset);
    DayName(ms, t, u, offset);
    HoursOfDay(t + offset);
    HoursOfDay(u + offset);
    var a, b := LocalTime(ms, t, offset), LocalTime(ms, u, offset);
    if DefaultDate(ms, Hourly, t, offset) == DefaultDate(ms, Hourly, u, offset) {
      Tails(DefaultDate(ms, Daily, t, offset), "-" + TwoDigits(a.hour),
            DefaultDate(ms, Daily, u, offset), "-" + TwoDigits(b.hour));
      TwoDigitsInjective(a.hour, b.hour);
    }
  }

  lemma MinuteOfHour(local: int)
    ensures local / 60 == 60 * (local / HOUR) + local % DAY % 3600 / 60
  {
    MinutesOfDay(local);
    HoursOfDay(local);
  }

  lemma MinuteName(ms: Months, t: int, u: int, offset: int)
    requires IsCalendar(ms)
    ensures DefaultDate(ms, Minutely, t, offset) == DefaultDate(ms, Minutely, u, offset)
            <==> PeriodOf(ms, Minutely, t, offset) == PeriodOf(ms, Minutely, u, offset)
  {
    FieldRanges(ms, t, offset);
    FieldRanges(ms, u, offset);
    HourName(ms, t, u, offset);
    MinuteOfHour(t + offset);
    MinuteOfHour(u + offset);
    var a, b := LocalTime(ms, t, offset), LocalTime(ms, u, offset);
    if DefaultDate(ms, Minutely, t, offset) == DefaultDate(ms, Minutely, u, offset) {
      Tails(DefaultDate(ms, Hourly, t, offset), "-" + TwoDigits(a.min),
            DefaultDate(ms, Hourly, u, offset), "-" + TwoDigits(b.min));
      TwoDigitsInjective(a.min, b.min);
    }
  }

  /** Within a year the week number is the number of the week less a constant. */
  lemma WeekNumber(day: int, newYear: int)
    requires 0 <= day - newYear < 372
    ensures WeekOfYear(day - newYear, (day + 4) % 7) == (day + 3) / 7 + (4 - newYear) / 7
  {
    var q, r := (day + 3) / 7, (day + 3) % 7;
    assert day == 7 * q + r - 3;
    assert ((day + 4) % 7 + 6) % 7 == r;
    assert (7 * q + (4 - newYear)) / 7 == q + (4 - newYear) / 7;
  }

  /** The weekly pattern names the week and the year, so that a week with a new year in it has two names. */
  lemma WeekName(ms: Months, t: int, u: int, offset: int)
    requires IsCalendar(ms)
    ensures DefaultDate(ms, Weekly, t, offset) == DefaultDate(ms, Weekly, u, offset)
            <==> PeriodOf(ms, Weekly, t, offset) == PeriodOf(ms, Weekly, u, offset)
                 && LocalTime(ms, t, offset).year == LocalTime(ms, u, offset).year
  {
    var x, y := LocalTime(ms, t, offset).year, LocalTime(ms, u, offset).year;
    var v := WeekText(ms, t, offset);
    var w := WeekText(ms, u, offset);
    if DefaultDate(ms, Weekly, t, offset) == DefaultDate(ms, Weekly, u, offset) {
      Tails(Year(x), "-" + TwoDigits(v), Year(y), "-" + TwoDigits(w));
      TwoDigitsInjective(v, w);
      YearInjective(x, y);
    }
  }

  lemma WeekText(ms: Months, t: int, offset: int) returns (v: int)
    requires IsCalendar(ms)
    ensures var y := LocalTime(ms, t, offset).year;
            && 0 <= v < 100 && DefaultDate(ms, Weekly, t, offset) == Year(y) + ("-" + TwoDigits(v))
            && v == PeriodOf(ms, Weekly, t, offset) + (4 - ms(12 * y)) / 7
  {
    FieldRanges(ms, t, offset);
    var tm, d := LocalTime(ms, t, offset), (t + offset) / DAY;
    WeekNumber(d, ms(12 * tm.year));
    v := WeekOfYear(d - ms(12 * tm.year), tm.wday);
  }

  /** The default pattern names the period, neither more nor less, except for weeks. */
  lemma DefaultDateNamesPeriod(ms: Months, s: Schedule, t: int, u: int, offset: int)
    requires IsCalendar(ms) && s != Weekly
    ensures DefaultDate(ms, s, t, offset) == DefaultDate(ms, s, u, offset)
            <==> PeriodOf(ms, s, t, offset) == PeriodOf(ms, s, u, offset)
  {
    if s == Monthly { MonthName(ms, t, u, offset); }
    if s == Daily { DayName(ms, t, u, offset); }
    if s == TwiceDaily { HalfDayName(ms, t, u, offset); }
    if s == Hourly { HourName(ms, t, u, offset); }
    if s == Minutely { MinuteName(ms, t, u, offset); }
  }

  // ----- The names read back -----

  predicate IsNumber(s: string) {
    s != "" && AllDigits(if s[0] == '-' then s[1..] else s)
  }

  function SignedNumber(s: string): int
    requires IsNumber(s)
  {
    if s[0] == '-' then 0 - Number(s[1..]) as int else Number(s)
  }

  /** A year, and after it fields of two digits, each behind a dash. */
  predicate Reads(s: string, year: int, fields: seq<int>)
    decreases |fields|
  {
    if fields == [] then IsNumber(s) && SignedNumber(s) == year
    else
      && |s| >= 3 && s[|s| - 3] == '-' && AllDigits(s[|s| - 2..])
      && Number(s[|s| - 2..]) == fields[|fields| - 1]
      && Reads(s[..|s| - 3], year, fields[..|fields| - 1])
  }

  lemma YearReads(y: int)
    ensures Reads(Year(y), y, [])
  {
    if y < 0 {
      assert Year(y)[1..] == Decimal(-y);
      NumberOfDecimal(-y);
    } else {
      assert IsDigit(Decimal(y)[0]);
      NumberOfDecimal(y);
    }
  }

  lemma FieldReads(s: string, year: int, fields: seq<int>, n: int)
    requires Reads(s, year, fields) && 0 <= n < 100
    ensures Reads(s + ("-" + TwoDigits(n)), year, fields + [n])
  {
    var t := s + ("-" + TwoDigits(n));
    assert t[..|t| - 3] == s && t[|t| - 2..] == TwoDigits(n) && (fields + [n])[..|fields|] == fields;
    var d := TwoDigits(n);
    assert d[..1] == [d[0]] && d[..1][..0] == [];
    assert Number(d[..1]) == n / 10;
  }

  lemma MonthReads(tm: Tm)
    requires 0 <= tm.mon < 12
    ensures Reads(Month(tm), tm.year, [tm.mon + 1])
  {
    YearReads(tm.year);
    FieldReads(Year(tm.year), tm.year, [], tm.mon + 1);
    assert [] + [tm.mon + 1] == [tm.mon + 1];
  }

  lemma DayReads(tm: Tm)
    requires 0 <= tm.mon < 12 && 0 < tm.mday < 100
    ensures Reads(Month(tm), tm.year, [tm.mon + 1]) && Reads(Date(tm), tm.year, [tm.mon + 1, tm.mday])
  {
    MonthReads(tm);
    FieldReads(Month(tm), tm.year, [tm.mon + 1], tm.mday);
    assert [tm.mon + 1] + [tm.mday] == [tm.mon + 1, tm.mday];
  }

  lemma ClockReads(tm: Tm)
    requires 0 <= tm.mon < 12 && 0 < tm.mday < 100 && 0 <= tm.hour < 24 && 0 <= tm.min < 60
    ensures var hour := Date(tm) + ("-" + TwoDigits(tm.hour));
            && Reads(hour, tm.year, [tm.mon + 1, tm.mday, tm.hour])
            && Reads(hour + ("-" + TwoDigits(tm.min)), tm.year, [tm.mon + 1, tm.mday, tm.hour, tm.min])
  {
    var day, hour := Date(tm), Date(tm) + ("-" + TwoDigits(tm.hour));
    var fields := [tm.mon + 1, tm.mday];
    DayReads(tm);
    FieldReads(day, tm.year, fields, tm.hour);
    FieldReads(hour, tm.year, fields + [tm.hour], tm.min);
    assert fields + [tm.hour] == [tm.mon + 1, tm.mday, tm.hour];
    assert fields + [tm.hour] + [tm.min] == [tm.mon + 1, tm.mday, tm.hour, tm.min];
  }

  /** The weekly name holds the year and how many of its Mondays have come. */
  lemma WeekReads(ms: Months, t: int, offset: int)
    requires IsCalendar(ms)
    ensures var tm := LocalTime(ms, t, offset);
            && 0 <= tm.wday < 7
            && Reads(DefaultDate(ms, Weekly, t, offset), tm.year,
                     [Mondays((t + offset) / DAY - ms(12 * tm.year), tm.wday)])
  {
    FieldRanges(ms, t, offset);
    var tm := LocalTime(ms, t, offset);
    var yday := (t + offset) / DAY - ms(12 * tm.year);
    var week := WeekOfYear(yday, tm.wday);
    WeekCountsMondays(yday, tm.wday);
    YearReads(tm.year);
    FieldReads(Year(tm.year), tm.year, [], week);
    assert [] + [week] == [week];
  }

  /** Each default name holds the local time down to its period: the year, the month from one, the day, the hour
      and the minute; twice daily it ends in AM before noon and in PM from noon on. */
  lemma DefaultDateReads(ms: Months, t: int, offset: int)
    requires IsCalendar(ms)
    ensures var tm := LocalTime(ms, t, offset);
            && Reads(DefaultDate(ms, Monthly, t, offset), tm.year, [tm.mon + 1])
            && Reads(DefaultDate(ms, Daily, t, offset), tm.year, [tm.mon + 1, tm.mday])
            && Reads(DefaultDate(ms, Hourly, t, offset), tm.year, [tm.mon + 1, tm.mday, tm.hour])
            && Reads(DefaultDate(ms, Minutely, t, offset), tm.year, [tm.mon + 1, tm.mday, tm.hour, tm.min])
            && DefaultDate(ms, TwiceDaily, t, offset)
               == DefaultDate(ms, Daily, t, offset) + (if tm.hour < 12 then "-AM" else "-PM")
  {
    FieldRanges(ms, t, offset);
    var tm := LocalTime(ms, t, offset);
    DayReads(tm);
    ClockReads(tm);
  }

  /** The Mondays of a year up to a day of it, the first day being number zero. */
  function Mondays(yday: int, wday: int): nat
    requires 0 <= wday < 7
  {
    (if wday == 1 then 1 else 0) + (if yday <= 0 then 0 else Mondays(yday - 1, (wday + 6) % 7))
  }

  lemma {:induction false} WeekCountsMondays(yday: nat, wday: int)
    requires yday < 372 && 0 <= wday < 7
    ensures WeekOfYear(yday, wday) == Mondays(yday, wday)
  {
    if yday > 0 { WeekCountsMondays(yday - 1, (wday + 6) % 7); }
  }

  /** No default date has a dot in it, so that numbered backups cannot be mistaken for archives. */
  lemma DefaultDateHasNoDot(ms: Months, s: Schedule, t: int, offset: int)
    requires IsCalendar(ms)
    ensures '.' !in DefaultDate(ms, s, t, offset)
  {
    FieldRanges(ms, t, offset);
    var tm := LocalTime(ms, t, offset);
    assert '.' !in Year(tm.year);
    assert '.' !in Month(tm);
    assert '.' !in Date(tm);
  }

  // ----- Archives and their numbered backups -----

  function ArchiveName(f: string, date: string): string {
    f + "." + date
  }

  lemma ArchiveNames(f: string, x: string, y: string, i: nat, j: nat)
    requires '.' !in x && '.' !in y
    ensures ArchiveName(f, x) != f && Backup(ArchiveName(f, x), i) != f
    ensures ArchiveName(f, x) == ArchiveName(f, y) ==> x == y
    ensures Backup(ArchiveName(f, x), i) != ArchiveName(f, y)
    ensures Backup(ArchiveName(f, x), i) == Backup(ArchiveName(f, y), j) ==> x == y && i == j
  {
    var a, b := Backup(ArchiveName(f, x), i), Backup(ArchiveName(f, y), j);
    assert |ArchiveName(f, x)| > |f| && |a| > |f|;
    var n := |f| + 1;
    assert ArchiveName(f, x)[n..] == x && ArchiveName(f, y)[n..] == y;
    assert a[n..] == x + "." + Decimal(i) && b[n..] == y + "." + Decimal(j);
    assert a[n..][|x|] == '.' && b[n..][|y|] == '.';
    if a == b {
      assert |x| == |y|;
      assert x == a[n..][..|x|] && y == b[n..][..|y|];
      BackupNames(ArchiveName(f, x), i, j);
    }
  }
}
