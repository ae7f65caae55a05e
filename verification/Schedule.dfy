/**
 The rollover schedules: when the next rollover is due, and the period a time
 belongs to.  Times are whole seconds since the epoch, the local clock is a fixed
 number of whole minutes ahead of UTC.
 */
module Schedule {
  import opened Calendar

  datatype Schedule = Monthly | Weekly | Daily | TwiceDaily | Hourly | Minutely

  const HALF_DAY := 43200
  const HOUR := 3600
  const WEEK := 604800

  /** std::fmod: the remainder has the sign of the dividend. */
  function Fmod(t: int, n: int): int
    requires n > 0
  {
    if t >= 0 then t % n else -(-t % n)
  }

  function RoundTime(t: int, n: int): int
    requires n > 0
  {
    t - Fmod(t, n)
  }

  /** calculateNextRolloverTime. */
  ghost function NextRollover(ms: Months, s: Schedule, t: int, offset: int): int
    requires IsCalendar(ms)
  {
    var next := LocalTime(ms, t, offset);
    match s
    case Monthly => MkTime(ms, next.(mon := next.mon + 1, mday := 1, hour := 0, min := 0, sec := 0), offset)
    case Weekly =>
      MkTime(ms, next.(mday := next.mday + (7 - next.wday + 1), hour := 0, min := 0, sec := 0), offset)
    case Daily => MkTime(ms, next.(mday := next.mday + 1, hour := 0, min := 0, sec := 0), offset)
    case TwiceDaily => MkTime(ms, next.(hour := if next.hour < 12 then 12 else 24, min := 0, sec := 0), offset)
    case Hourly => MkTime(ms, next.(hour := next.hour + 1, min := 0, sec := 0), offset)
    case Minutely => RoundTime(t, 60) + 60
  }

  // ----- The specification: what the clock shows when a period begins -----

  ghost predicate IsBoundary(ms: Months, s: Schedule, b: int, offset: int)
    requires IsCalendar(ms)
  {
    var tm := LocalTime(ms, b, offset);
    match s
    case Monthly => tm.mday == 1 && tm.hour == 0 && tm.min == 0 && tm.sec == 0
    case Weekly => tm.wday == 1 && tm.hour == 0 && tm.min == 0 && tm.sec == 0
    case Daily => tm.hour == 0 && tm.min == 0 && tm.sec == 0
    case TwiceDaily => (tm.hour == 0 || tm.hour == 12) && tm.min == 0 && tm.sec == 0
    case Hourly => tm.min == 0 && tm.sec == 0
    case Minutely => tm.sec == 0
  }

  ghost predicate IsSunday(ms: Months, t: int, offset: int)
    requires IsCalendar(ms)
  {
    LocalTime(ms, t, offset).wday == 0
  }

  // ----- Periods -----

  ghost function PeriodOf(ms: Months, s: Schedule, t: int, offset: int): int
    requires IsCalendar(ms)
  {
    var local := t + offset;
    match s
    case Monthly => MonthOf(ms, local / DAY)
    case Weekly => (local / DAY + 3) / 7
    case Daily => local / DAY
    case TwiceDaily => local / HALF_DAY
    case Hourly => local / HOUR
    case Minutely => local / 60
  }

  function PeriodStart(ms: Months, s: Schedule, p: int, offset: int): int {
    match s
    case Monthly => ms(p) * DAY - offset
    case Weekly => (7 * p - 3) * DAY - offset
    case Daily => p * DAY - offset
    case TwiceDaily => p * HALF_DAY - offset
    case Hourly => p * HOUR - offset
    case Minutely => p * 60 - offset
  }

  /** A time is in period p or later exactly when it is not before the start of p. */
  lemma PeriodReached(ms: Months, s: Schedule, t: int, p: int, offset: int)
    requires IsCalendar(ms)
    ensures t >= PeriodStart(ms, s, p, offset) <==> PeriodOf(ms, s, t, offset) >= p
  {
    if s == Monthly {
      var day := (t + offset) / DAY;
      MonthOrder(ms, p, MonthOf(ms, day) + 1);
      MonthOrder(ms, MonthOf(ms, day), p);
      assert t + offset >= ms(p) * DAY <==> day >= ms(p);
    }
  }

  lemma StartPeriod(ms: Months, s: Schedule, p: int, offset: int)
    requires IsCalendar(ms)
    ensures PeriodOf(ms, s, PeriodStart(ms, s, p, offset), offset) == p
  {
    if s == Monthly {
      assert MonthOk(ms, p);
      MonthOfUnique(ms, ms(p), p);
      assert (PeriodStart(ms, s, p, offset) + offset) / DAY == ms(p);
    }
  }

  lemma WithinDay(local: int)
    ensures var s := local % DAY; s % 60 == local % 60 && s % HOUR == local % HOUR && s % HALF_DAY == local % HALF_DAY
  {
    var d, s := local / DAY, local % DAY;
    RemainderIs(local, 60, 1440 * d + s / 60, s % 60);
    RemainderIs(local, HOUR, 24 * d + s / HOUR, s % HOUR);
    RemainderIs(local, HALF_DAY, 2 * d + s / HALF_DAY, s % HALF_DAY);
  }

  lemma ClockHands(s: int)
    requires 0 <= s < DAY
    ensures var h, m, sec := s / 3600, s % 3600 / 60, s % 60;
            && (m == 0 && sec == 0 <==> s % HOUR == 0)
            && ((h == 0 || h == 12) && m == 0 && sec == 0 <==> s % HALF_DAY == 0)
            && (h == 0 && m == 0 && sec == 0 <==> s == 0)
  {
    ClockFields(s);
    var h, r := s / 3600, s % 3600;
    assert s == h * 3600 + r && 0 <= h < 24 && 0 <= r < 3600;
  }

  lemma ClockAtStart(ms: Months, b: int, offset: int)
    requires IsCalendar(ms)
    ensures var tm, local := LocalTime(ms, b, offset), b + offset;
            && (tm.sec == 0 <==> local % 60 == 0)
            && (tm.min == 0 && tm.sec == 0 <==> local % HOUR == 0)
            && ((tm.hour == 0 || tm.hour == 12) && tm.min == 0 && tm.sec == 0 <==> local % HALF_DAY == 0)
            && (tm.hour == 0 && tm.min == 0 && tm.sec == 0 <==> local % DAY == 0)
  {
    WithinDay(b + offset);
    ClockHands((b + offset) % DAY);
  }

  /** Boundaries are the starts of periods. */
  lemma BoundaryIsStart(ms: Months, s: Schedule, b: int, offset: int)
    requires IsCalendar(ms)
    ensures IsBoundary(ms, s, b, offset) <==> b == PeriodStart(ms, s, PeriodOf(ms, s, b, offset), offset)
  {
    ClockAtStart(ms, b, offset);
  }

  // ----- The next rollover -----

  /** When the next boundary is passed over: on Sundays of the weekly schedule, and before the epoch. */
  ghost predicate Skips(ms: Months, s: Schedule, t: int, offset: int)
    requires IsCalendar(ms)
  {
    (s == Weekly && IsSunday(ms, t, offset)) || (s == Minutely && t < 0 && t % 60 != 0)
  }

  lemma NextMidnight(ms: Months, t: int, offset: int, days: int)
    requires IsCalendar(ms)
    ensures var tm := LocalTime(ms, t, offset);
            && MkTime(ms, tm.(mday := tm.mday + days, hour := 0, min := 0, sec := 0), offset)
               == ((t + offset) / DAY + days) * DAY - offset
            && MkTime(ms, tm.(mon := tm.mon + 1, mday := 1, hour := 0, min := 0, sec := 0), offset)
               == ms(MonthOf(ms, (t + offset) / DAY) + 1) * DAY - offset
  {
    var m := MonthOf(ms, (t + offset) / DAY);
    assert 12 * (m / 12) + m % 12 == m;
  }

  lemma NextHour(ms: Months, t: int, offset: int, h: int)
    requires IsCalendar(ms)
    ensures var tm := LocalTime(ms, t, offset);
            MkTime(ms, tm.(hour := h, min := 0, sec := 0), offset) == (t + offset) / DAY * DAY + h * HOUR - offset
  {
    var m := MonthOf(ms, (t + offset) / DAY);
    assert 12 * (m / 12) + m % 12 == m;
  }

  /** The computed time is the start of the following period, one further on when it skips. */
  lemma NextIsPeriodStart(ms: Months, s: Schedule, t: int, offset: int)
    requires IsCalendar(ms) && offset % 60 == 0
    ensures NextRollover(ms, s, t, offset)
            == PeriodStart(ms, s, PeriodOf(ms, s, t, offset) + (if Skips(ms, s, t, offset) then 2 else 1), offset)
  {
    var local := t + offset;
    var day, tm := local / DAY, LocalTime(ms, t, offset);
    match s
    case Monthly => NextMidnight(ms, t, offset, 0);
    case Weekly =>
      NextMidnight(ms, t, offset, 7 - tm.wday + 1);
      Mondays(day);
    case Daily => NextMidnight(ms, t, offset, 1);
    case TwiceDaily =>
      NextHour(ms, t, offset, if tm.hour < 12 then 12 else 24);
      HalfDays(local);
    case Hourly =>
      NextHour(ms, t, offset, tm.hour + 1);
      HoursOfDay(local);
    case Minutely => Minutes(t, offset);
  }

  lemma Mondays(day: int)
    ensures var wday := (day + 4) % 7; day + 7 - wday + 1 == 7 * ((day + 3) / 7 + (if wday == 0 then 2 else 1)) - 3
  {
  }

  lemma HalfDays(local: int)
    ensures local / HALF_DAY == 2 * (local / DAY) + (if local % DAY / 3600 < 12 then 0 else 1)
  {
  }

  lemma HoursOfDay(local: int)
    ensures local / HOUR == 24 * (local / DAY) + local % DAY / 3600
  {
    var d, s := local / DAY, local % DAY;
    assert local == HOUR * (24 * d + s / HOUR) + s % HOUR;
  }

  lemma Minutes(t: int, offset: int)
    requires offset % 60 == 0
    ensures (t + offset) / 60 == t / 60 + offset / 60
    ensures RoundTime(t, 60) == (if t < 0 && t % 60 != 0 then t / 60 + 1 else t / 60) * 60
  {
  }

  /** The next rollover is strictly later and on a boundary, and it is the first boundary after t exactly
      when it does not skip one. */
  lemma NextRolloverCorrect(ms: Months, s: Schedule, t: int, offset: int)
    requires IsCalendar(ms) && offset % 60 == 0
    ensures var n := NextRollover(ms, s, t, offset);
            && t < n && IsBoundary(ms, s, n, offset) && n != -1
            && ((forall b :: IsBoundary(ms, s, b, offset) && t < b ==> n <= b) <==> !Skips(ms, s, t, offset))
  {
    var n, p := NextRollover(ms, s, t, offset), PeriodOf(ms, s, t, offset);
    var q := if Skips(ms, s, t, offset) then p + 2 else p + 1;
    NextIsPeriodStart(ms, s, t, offset);
    PeriodReached(ms, s, t, q, offset);
    StartPeriod(ms, s, q, offset);
    BoundaryIsStart(ms, s, n, offset);
    if Skips(ms, s, t, offset) {
      var b := PeriodStart(ms, s, p + 1, offset);
      StartPeriod(ms, s, p + 1, offset);
      BoundaryIsStart(ms, s, b, offset);
      PeriodReached(ms, s, t, p + 1, offset);
      PeriodReached(ms, s, b, p + 2, offset);
      assert IsBoundary(ms, s, b, offset) && t < b && b < n;
    } else {
      forall b | IsBoundary(ms, s, b, offset) && t < b ensures n <= b {
        var r := PeriodOf(ms, s, b, offset);
        BoundaryIsStart(ms, s, b, offset);
        PeriodReached(ms, s, t, r, offset);
        PeriodReached(ms, s, b, p + 1, offset);
      }
    }
    NotMinusOne(ms, s, q, offset);
  }

  /** mktime's error value is no boundary, so the fallback branches are never taken. */
  lemma NotMinusOne(ms: Months, s: Schedule, p: int, offset: int)
    requires offset % 60 == 0
    ensures PeriodStart(ms, s, p, offset) != -1
  {
    var minutes := match s
      case Monthly => ms(p) * 1440
      case Weekly => (7 * p - 3) * 1440
      case Daily => p * 1440
      case TwiceDaily => p * 720
      case Hourly => p * 60
      case Minutely => p;
    assert PeriodStart(ms, s, p, offset) == minutes * 60 - offset;
    assert offset == offset / 60 * 60;
  }

  /** On a Sunday the weekly schedule waits for the Monday after the next. */
  lemma WeeklySunday(ms: Months, t: int, offset: int)
    requires IsCalendar(ms) && offset % 60 == 0 && IsSunday(ms, t, offset)
    ensures var n := NextRollover(ms, Weekly, t, offset);
            && IsBoundary(ms, Weekly, n - WEEK, offset) && t < n - WEEK <= t + DAY
  {
    var p := PeriodOf(ms, Weekly, t, offset);
    NextIsPeriodStart(ms, Weekly, t, offset);
    StartPeriod(ms, Weekly, p + 1, offset);
    BoundaryIsStart(ms, Weekly, PeriodStart(ms, Weekly, p + 1, offset), offset);
  }

  lemma StartMonotone(ms: Months, s: Schedule, p: int, q: int, offset: int)
    requires IsCalendar(ms) && p <= q
    ensures PeriodStart(ms, s, p, offset) <= PeriodStart(ms, s, q, offset)
  {
    if s == Monthly { MonthOrder(ms, p, q); }
  }

  lemma PeriodMonotone(ms: Months, s: Schedule, t: int, u: int, offset: int)
    requires IsCalendar(ms) && t <= u
    ensures PeriodOf(ms, s, t, offset) <= PeriodOf(ms, s, u, offset)
  {
    var p := PeriodOf(ms, s, t, offset);
    PeriodReached(ms, s, t, p, offset);
    PeriodReached(ms, s, u, p, offset);
  }

  lemma SkipOrder(ms: Months, s: Schedule, t: int, u: int, offset: int)
    requires IsCalendar(ms) && offset % 60 == 0 && t <= u
    requires PeriodOf(ms, s, t, offset) == PeriodOf(ms, s, u, offset) && Skips(ms, s, t, offset)
    ensures Skips(ms, s, u, offset)
  {
    if s == Weekly {
      LastOfWeek((t + offset) / DAY, (u + offset) / DAY);
    } else {
      Minutes(t, offset);
      Minutes(u, offset);
      assert t / 60 == u / 60 && t % 60 <= u % 60;
    }
  }

  lemma LastOfWeek(d: int, e: int)
    requires d <= e && (d + 3) / 7 == (e + 3) / 7 && (d + 4) % 7 == 0
    ensures d == e
  {
  }

  /** Later times never have an earlier next rollover. */
  lemma NextRolloverMonotone(ms: Months, s: Schedule, t: int, u: int, offset: int)
    requires IsCalendar(ms) && offset % 60 == 0 && t <= u
    ensures NextRollover(ms, s, t, offset) <= NextRollover(ms, s, u, offset)
  {
    NextIsPeriodStart(ms, s, t, offset);
    NextIsPeriodStart(ms, s, u, offset);
    PeriodMonotone(ms, s, t, u, offset);
    var p := PeriodOf(ms, s, t, offset) + (if Skips(ms, s, t, offset) then 2 else 1);
    var q := PeriodOf(ms, s, u, offset) + (if Skips(ms, s, u, offset) then 2 else 1);
    if PeriodOf(ms, s, t, offset) == PeriodOf(ms, s, u, offset) && Skips(ms, s, t, offset) {
      SkipOrder(ms, s, t, u, offset);
    }
    StartMonotone(ms, s, p, q, offset);
  }
}
