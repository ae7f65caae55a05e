/**
 The time based rolling appender's deletion of old files: each heart beat removes the
 files of as many periods as have passed since the last one.  Times are microseconds.
 */
module HistoryCleaning {
  import opened Files
  import opened Calendar
  import opened Schedule

  const SECOND := 1_000_000

  function Seconds(t: int): int {
    t / SECOND
  }

  /** getRolloverPeriodDuration, in seconds; twice daily has no case of its own. */
  function Duration(s: Schedule): (d: int)
    ensures d > 0
  {
    match s
    case Monthly => 31 * DAY
    case Weekly => WEEK
    case Daily => DAY
    case TwiceDaily => DAY
    case Hourly => HOUR
    case Minutely => 60
  }

  /** The schedules whose periods all have the duration the cleaning assumes. */
  predicate Uniform(s: Schedule) {
    s != Monthly && s != TwiceDaily
  }

  /** C++ division: towards zero. */
  function Quotient(a: int, b: int): int
    requires b > 0
  {
    if a >= 0 then a / b else -(-a / b)
  }

  /** How many periods one call removes. */
  function Periods(s: Schedule, last: int, time: int): int {
    var interval := if last != 0 then time - last + SECOND else 31 * DAY * SECOND;
    Quotient(interval, Duration(s) * SECOND)
  }

  function TimeToRemove(s: Schedule, maxHistory: int, time: int, i: int): int {
    time + (-maxHistory - 1 - i) * (Duration(s) * SECOND)
  }

  function NameToRemove(s: Schedule, maxHistory: int, time: int, name: int -> string, i: int): string {
    name(Seconds(TimeToRemove(s, maxHistory, time, i)))
  }

  function FirstNames(s: Schedule, maxHistory: int, time: int, name: int -> string, n: int): set<string> {
    set i | 0 <= i < n :: NameToRemove(s, maxHistory, time, name, i)
  }

  function RemovedNames(s: Schedule, maxHistory: int, last: int, time: int, name: int -> string): set<string> {
    FirstNames(s, maxHistory, time, name, Periods(s, last, time))
  }

  /** What is removed when the appender starts. */
  function InitNames(s: Schedule, maxHistory: int, now: int, name: int -> string, onStart: bool): set<string> {
    RemovedNames(s, maxHistory, 0, if onStart then now + maxHistory * (Duration(s) * SECOND) else now, name)
  }

  class TimeBasedRollingFileAppender {
    const fs: FileSystem<Content>
    const schedule: Schedule
    const maxHistory: int
    /** The file name pattern applied to a time in seconds. */
    const name: int -> string
    var lastHeartBeat: int

    constructor (fs: FileSystem<Content>, schedule: Schedule, maxHistory: int, name: int -> string)
      ensures this.fs == fs && this.schedule == schedule && this.maxHistory == maxHistory && this.name == name
      ensures lastHeartBeat == 0
    {
      this.fs, this.schedule, this.maxHistory, this.name := fs, schedule, maxHistory, name;
      lastHeartBeat := 0;
    }

    method Clean(time: int)
      modifies this`lastHeartBeat, fs
      ensures fs.disk == old(fs.disk) - RemovedNames(schedule, maxHistory, old(lastHeartBeat), time, name)
      ensures lastHeartBeat == time
    {
      var interval := 31 * DAY * SECOND;
      if lastHeartBeat != 0 {
        interval := time - lastHeartBeat + SECOND;
      }
      var period := Duration(schedule) * SECOND;
      var periods := Quotient(interval, period);
      var i := 0;
      while i < periods
        invariant 0 <= i && (i <= periods || (i == 0 && periods < 0))
        invariant lastHeartBeat == old(lastHeartBeat)
        invariant fs.disk == old(fs.disk) - FirstNames(schedule, maxHistory, time, name, i)
      {
        var timeToRemove := time + (-maxHistory - 1 - i) * period;
        fs.FileRemove(name(Seconds(timeToRemove)));
        assert FirstNames(schedule, maxHistory, time, name, i + 1)
            == FirstNames(schedule, maxHistory, time, name, i) + {NameToRemove(schedule, maxHistory, time, name, i)};
        i := i + 1;
      }
      assert periods < 0 ==> FirstNames(schedule, maxHistory, time, name, periods) == {};
      lastHeartBeat := time;
    }

    /** The cleaning that init makes, with the heart beat put back to the present after it. */
    method CleanAtInit(now: int, cleanHistoryOnStart: bool)
      requires lastHeartBeat == 0
      modifies this`lastHeartBeat, fs
      ensures fs.disk == old(fs.disk) - InitNames(schedule, maxHistory, now, name, cleanHistoryOnStart)
      ensures lastHeartBeat == now
    {
      if cleanHistoryOnStart {
        Clean(now + maxHistory * (Duration(schedule) * SECOND));
      } else {
        Clean(now);
      }
      lastHeartBeat := now;
    }
  }

  // ----- Nothing recent is removed -----

  /** The pattern tells periods apart. */
  ghost predicate NamesPeriods(ms: Months, s: Schedule, offset: int, name: int -> string)
    requires IsCalendar(ms)
  {
    forall t, u :: name(t) == name(u) ==> PeriodOf(ms, s, t, offset) == PeriodOf(ms, s, u, offset)
  }

  lemma BackInSeconds(s: Schedule, time: int, n: int)
    ensures Seconds(time - n * (Duration(s) * SECOND)) == Seconds(time) - n * Duration(s)
  {
    var d := n * Duration(s);
    assert n * (Duration(s) * SECOND) == d * SECOND;
    assert (time - d * SECOND) / SECOND == time / SECOND - d;
  }

  lemma DaysBack(local: int, n: int)
    ensures (local - n * DAY) / DAY == local / DAY - n
  {
  }

  lemma MonthsBack(ms: Months, day: int, n: int)
    requires IsCalendar(ms)
    ensures n >= 0 ==> MonthOf(ms, day - 31 * n) <= MonthOf(ms, day) - n
    ensures n <= 0 ==> MonthOf(ms, day - 31 * n) >= MonthOf(ms, day) - n
  {
    if n >= 0 { BackByMonths(ms, day, n); }
    if n <= 0 {
      BackByMonths(ms, day - 31 * n, -n);
      assert day - 31 * n - 31 * -n == day;
    }
  }

  /** Going back n durations goes back at least n periods, and going forward goes forward at least as many. */
  lemma BackByPeriods(ms: Months, s: Schedule, t: int, n: int, offset: int)
    requires IsCalendar(ms)
    ensures n >= 0 ==> PeriodOf(ms, s, t - n * Duration(s), offset) <= PeriodOf(ms, s, t, offset) - n
    ensures n <= 0 ==> PeriodOf(ms, s, t - n * Duration(s), offset) >= PeriodOf(ms, s, t, offset) - n
    ensures s == Monthly ==> PeriodOf(ms, s, t - n * Duration(s), offset) == MonthOf(ms, (t + offset) / DAY - 31 * n)
    ensures s == TwiceDaily ==> PeriodOf(ms, s, t - n * Duration(s), offset) == PeriodOf(ms, s, t, offset) - 2 * n
    ensures Uniform(s) ==> PeriodOf(ms, s, t - n * Duration(s), offset) == PeriodOf(ms, s, t, offset) - n
  {
    var local := t + offset;
    match s
    case Monthly =>
      assert n * Duration(s) == 31 * n * DAY;
      DaysBack(local, 31 * n);
      assert t - n * Duration(s) + offset == local - 31 * n * DAY;
      MonthsBack(ms, local / DAY, n);
    case Weekly =>
      assert n * Duration(s) == 7 * n * DAY;
      DaysBack(local, 7 * n);
      assert (local / DAY - 7 * n + 3) / 7 == (local / DAY + 3) / 7 - n;
    case Daily => DaysBack(local, n);
    case TwiceDaily => assert (local - 2 * n * HALF_DAY) / HALF_DAY == local / HALF_DAY - 2 * n;
    case Hourly => assert (local - n * HOUR) / HOUR == local / HOUR - n;
    case Minutely => assert (local - n * 60) / 60 == local / 60 - n;
  }

  lemma TakenAway(time: int, n: int, d: int)
    ensures time + -n * d == time - n * d
  {
  }

  lemma RemovedPeriod(ms: Months, s: Schedule, offset: int, maxHistory: int, time: int, i: nat)
    requires IsCalendar(ms)
    ensures var p, q, n := PeriodOf(ms, s, Seconds(TimeToRemove(s, maxHistory, time, i)), offset),
                           PeriodOf(ms, s, Seconds(time), offset), maxHistory + 1 + i;
            && (n >= 0 ==> p <= q - n) && (n <= 0 ==> p >= q - n)
            && (s == Monthly ==> p == MonthOf(ms, (Seconds(time) + offset) / DAY - 31 * n))
            && (s == TwiceDaily ==> p == q - 2 * n)
            && (Uniform(s) ==> p == q - n)
  {
    var n := maxHistory + 1 + i;
    TakenAway(time, n, Duration(s) * SECOND);
    BackInSeconds(s, time, n);
    BackByPeriods(ms, s, Seconds(time), n, offset);
  }

  /** Whatever the last heart beat, no file of the period of the time argument or of the maxHistory periods
      before it is removed. */
  lemma CleanKeepsRecent(ms: Months, s: Schedule, offset: int, name: int -> string,
                         maxHistory: nat, last: int, time: int, recent: int)
    requires IsCalendar(ms) && NamesPeriods(ms, s, offset, name)
    requires PeriodOf(ms, s, Seconds(time), offset) - maxHistory <= PeriodOf(ms, s, recent, offset)
    ensures name(recent) !in RemovedNames(s, maxHistory, last, time, name)
  {
    forall i | 0 <= i < Periods(s, last, time)
      ensures NameToRemove(s, maxHistory, time, name, i) != name(recent)
    {
      RemovedPeriod(ms, s, offset, maxHistory, time, i);
    }
  }

  /** Cleaning on start is made as if maxHistory periods had passed: it keeps the files of the present period
      and later ones only. */
  lemma CleanOnStartKeepsPresent(ms: Months, s: Schedule, offset: int, name: int -> string,
                                 maxHistory: nat, last: int, now: int, recent: int)
    requires IsCalendar(ms) && NamesPeriods(ms, s, offset, name)
    requires PeriodOf(ms, s, Seconds(now), offset) <= PeriodOf(ms, s, recent, offset)
    ensures name(recent) !in RemovedNames(s, maxHistory, last, now + maxHistory * (Duration(s) * SECOND), name)
  {
    var time := now + maxHistory * (Duration(s) * SECOND);
    forall i | 0 <= i < Periods(s, last, time)
      ensures NameToRemove(s, maxHistory, time, name, i) != name(recent)
    {
      var n := 1 + i;
      BackInSeconds(s, now, n);
      FromStart(s, maxHistory, now, i);
      BackByPeriods(ms, s, Seconds(now), n, offset);
    }
  }

  lemma FromStart(s: Schedule, maxHistory: int, now: int, i: int)
    ensures TimeToRemove(s, maxHistory, now + maxHistory * (Duration(s) * SECOND), i)
            == now - (1 + i) * (Duration(s) * SECOND)
  {
  }

  // ----- What two heart beats in a row leave behind -----

  /** How far into its period a time is. */
  function IntoPeriod(ms: Months, s: Schedule, t: int, offset: int, p: int): int {
    t - PeriodStart(ms, s, p, offset) * SECOND
  }

  ghost predicate Expired(ms: Months, s: Schedule, offset: int, maxHistory: int, last: int, time: int, p: int)
    requires IsCalendar(ms)
  {
    PeriodOf(ms, s, Seconds(last), offset) - maxHistory <= p < PeriodOf(ms, s, Seconds(time), offset) - maxHistory
  }

  /** A period whose files one of the removals is for. */
  ghost predicate RemovesPeriod(ms: Months, s: Schedule, offset: int, maxHistory: int, last: int, time: int, p: int)
    requires IsCalendar(ms)
  {
    exists i :: 0 <= i < Periods(s, last, time)
                && PeriodOf(ms, s, Seconds(TimeToRemove(s, maxHistory, time, i)), offset) == p
  }

  lemma StartsApart(ms: Months, s: Schedule, offset: int, p: int, q: int)
    requires Uniform(s)
    ensures PeriodStart(ms, s, q, offset) - PeriodStart(ms, s, p, offset) == (q - p) * Duration(s)
  {
  }

  lemma RemovedRange(ms: Months, s: Schedule, offset: int, maxHistory: int, last: int, time: int, p: int)
    requires IsCalendar(ms) && Uniform(s)
    ensures RemovesPeriod(ms, s, offset, maxHistory, last, time, p)
            <==> 0 <= PeriodOf(ms, s, Seconds(time), offset) - maxHistory - 1 - p < Periods(s, last, time)
  {
    var k := PeriodOf(ms, s, Seconds(time), offset) - maxHistory - 1 - p;
    forall i | 0 <= i < Periods(s, last, time)
      ensures PeriodOf(ms, s, Seconds(TimeToRemove(s, maxHistory, time, i)), offset) == p <==> i == k
    {
      RemovedPeriod(ms, s, offset, maxHistory, time, i);
    }
    assert 0 <= k < Periods(s, last, time)
           ==> PeriodOf(ms, s, Seconds(TimeToRemove(s, maxHistory, time, k)), offset) == p;
  }

  /** A later heart beat: exactly as many of the expired periods as have gone by since the last one, a second
      being allowed for. */
  lemma LaterCleanRemovesIff(ms: Months, s: Schedule, offset: int, maxHistory: int, last: int, time: int, p: int)
    requires IsCalendar(ms) && Uniform(s) && last != 0
    ensures RemovesPeriod(ms, s, offset, maxHistory, last, time, p)
            <==> var k := PeriodOf(ms, s, Seconds(time), offset) - maxHistory - p;
                 k >= 1 && time - last + SECOND >= k * (Duration(s) * SECOND)
  {
    RemovedRange(ms, s, offset, maxHistory, last, time, p);
    var k := PeriodOf(ms, s, Seconds(time), offset) - maxHistory - p;
    if k >= 1 { QuotientIff(time - last + SECOND, Duration(s) * SECOND, k); }
  }

  lemma FirstCount(s: Schedule, time: int)
    ensures Periods(s, 0, time)
            == match s
               case Monthly => 1
               case Weekly => 4
               case Daily => 31
               case TwiceDaily => 31
               case Hourly => 744
               case Minutely => 44640
  {
  }

  /** The first heart beat of a process: of the expired periods the last 4 weeks, 31 days, 744 hours or 44640
      minutes; one month, that of 31 days back for it and for each of the kept months; every other one of the last
      half days, 31 of them, beginning twice the kept number back. */
  lemma FirstCleanRemovesIff(ms: Months, s: Schedule, offset: int, maxHistory: int, time: int, p: int)
    requires IsCalendar(ms)
    ensures RemovesPeriod(ms, s, offset, maxHistory, 0, time, p)
            <==> var q := PeriodOf(ms, s, Seconds(time), offset);
                 match s
                 case Monthly => p == PeriodOf(ms, Monthly, Seconds(time) - 31 * DAY * (maxHistory + 1), offset)
                 case Weekly => 1 <= q - maxHistory - p <= 4
                 case Daily => 1 <= q - maxHistory - p <= 31
                 case TwiceDaily => (q - p) % 2 == 0 && 1 <= (q - p) / 2 - maxHistory <= 31
                 case Hourly => 1 <= q - maxHistory - p <= 744
                 case Minutely => 1 <= q - maxHistory - p <= 44640
  {
    FirstCount(s, time);
    if s == Monthly {
      FirstMonthRemoved(ms, offset, maxHistory, time, p);
    } else if s == TwiceDaily {
      FirstHalvesRemoved(ms, offset, maxHistory, time, p);
    } else {
      RemovedRange(ms, s, offset, maxHistory, 0, time, p);
    }
  }

  lemma FirstMonthRemoved(ms: Months, offset: int, maxHistory: int, time: int, p: int)
    requires IsCalendar(ms)
    ensures RemovesPeriod(ms, Monthly, offset, maxHistory, 0, time, p)
            <==> p == PeriodOf(ms, Monthly, Seconds(time) - 31 * DAY * (maxHistory + 1), offset)
  {
    FirstCount(Monthly, time);
    var n := maxHistory + 1;
    assert TimeToRemove(Monthly, maxHistory, time, 0) == time - n * (Duration(Monthly) * SECOND);
    BackInSeconds(Monthly, time, n);
    assert Seconds(TimeToRemove(Monthly, maxHistory, time, 0)) == Seconds(time) - 31 * DAY * (maxHistory + 1);
    if p == PeriodOf(ms, Monthly, Seconds(TimeToRemove(Monthly, maxHistory, time, 0)), offset) {
      assert RemovesPeriod(ms, Monthly, offset, maxHistory, 0, time, p);
    }
  }

  lemma FirstHalvesRemoved(ms: Months, offset: int, maxHistory: int, time: int, p: int)
    requires IsCalendar(ms)
    ensures RemovesPeriod(ms, TwiceDaily, offset, maxHistory, 0, time, p)
            <==> var q := PeriodOf(ms, TwiceDaily, Seconds(time), offset);
                 (q - p) % 2 == 0 && 1 <= (q - p) / 2 - maxHistory <= 31
  {
    FirstCount(TwiceDaily, time);
    var q := PeriodOf(ms, TwiceDaily, Seconds(time), offset);
    var k := (q - p) / 2 - maxHistory - 1;
    forall i | 0 <= i < 31
      ensures PeriodOf(ms, TwiceDaily, Seconds(TimeToRemove(TwiceDaily, maxHistory, time, i)), offset)
              == q - 2 * (maxHistory + 1 + i)
    {
      RemovedPeriod(ms, TwiceDaily, offset, maxHistory, time, i);
    }
    if (q - p) % 2 == 0 && 0 <= k < 31 {
      assert PeriodOf(ms, TwiceDaily, Seconds(TimeToRemove(TwiceDaily, maxHistory, time, k)), offset) == p;
    }
  }

  /** With a pattern that gives the times of a period one name and no other time that name, a file goes exactly when
      one of the removals is for its period. */
  lemma FileRemovedIff(ms: Months, s: Schedule, offset: int, name: int -> string,
                       maxHistory: int, last: int, time: int, u: int)
    requires IsCalendar(ms)
    requires forall t, v :: name(t) == name(v) <==> PeriodOf(ms, s, t, offset) == PeriodOf(ms, s, v, offset)
    ensures name(u) in RemovedNames(s, maxHistory, last, time, name)
            <==> RemovesPeriod(ms, s, offset, maxHistory, last, time, PeriodOf(ms, s, u, offset))
  {
    if name(u) in RemovedNames(s, maxHistory, last, time, name) {
      var i :| 0 <= i < Periods(s, last, time) && name(u) == NameToRemove(s, maxHistory, time, name, i);
      assert PeriodOf(ms, s, Seconds(TimeToRemove(s, maxHistory, time, i)), offset) == PeriodOf(ms, s, u, offset);
    }
    if RemovesPeriod(ms, s, offset, maxHistory, last, time, PeriodOf(ms, s, u, offset)) {
      var i :| 0 <= i < Periods(s, last, time)
               && PeriodOf(ms, s, Seconds(TimeToRemove(s, maxHistory, time, i)), offset) == PeriodOf(ms, s, u, offset);
      assert NameToRemove(s, maxHistory, time, name, i) == name(u);
    }
  }

  /** Cleaning on start removes what a first heart beat without any history to keep would. */
  lemma CleanOnStartForgetsHistory(s: Schedule, maxHistory: int, now: int, name: int -> string)
    ensures InitNames(s, maxHistory, now, name, true) == InitNames(s, 0, now, name, false)
  {
    var time := now + maxHistory * (Duration(s) * SECOND);
    forall i ensures NameToRemove(s, maxHistory, time, name, i) == NameToRemove(s, 0, now, name, i) {
      FromStart(s, maxHistory, now, i);
    }
    assert RemovedNames(s, maxHistory, 0, time, name) == RemovedNames(s, 0, 0, now, name);
  }

  /** The present period's own file is removed exactly when the history length is negative and enough periods
      are removed. */
  lemma PresentRemovedIff(ms: Months, s: Schedule, offset: int, maxHistory: int, last: int, time: int)
    requires IsCalendar(ms)
    ensures RemovesPeriod(ms, s, offset, maxHistory, last, time, PeriodOf(ms, s, Seconds(time), offset))
            <==> maxHistory < 0 && -maxHistory - 1 < Periods(s, last, time)
  {
    var k := -maxHistory - 1;
    forall i | 0 <= i < Periods(s, last, time)
      ensures (PeriodOf(ms, s, Seconds(TimeToRemove(s, maxHistory, time, i)), offset)
               == PeriodOf(ms, s, Seconds(time), offset)) <==> i == k
    {
      RemovedPeriod(ms, s, offset, maxHistory, time, i);
    }
    assert 0 <= k < Periods(s, last, time)
           ==> PeriodOf(ms, s, Seconds(TimeToRemove(s, maxHistory, time, k)), offset)
               == PeriodOf(ms, s, Seconds(time), offset);
  }

  /** At least q whole durations fit into a + 1 second exactly when a has not fallen short by more. */
  lemma Fit(d: int, x: int, q: int, rest: int)
    requires d > 0 && q > 0 && x == q * d + rest && -d < rest < d
    ensures Quotient(x, d) >= q <==> rest >= 0
  {
    if rest >= 0 {
      assert x / d >= q by { assert x == d * q + rest; QuotientAtLeast(x, d, q); }
    } else {
      assert x < q * d;
      QuotientBelow(x, d, q);
    }
  }

  lemma QuotientAtLeast(x: int, d: int, q: int)
    requires d > 0 && q >= 0 && x >= d * q
    ensures x / d >= q
  {
    var y := x / d;
    assert x == d * y + x % d;
    assert y < q ==> d * y <= d * (q - 1);
  }

  lemma QuotientBelow(x: int, d: int, q: int)
    requires d > 0 && q > 0 && x < q * d
    ensures Quotient(x, d) < q
  {
    assert x / d >= q ==> d * (x / d) >= d * q;
  }

  lemma QuotientIff(x: int, d: int, q: int)
    requires d > 0 && q > 0
    ensures Quotient(x, d) >= q <==> x >= q * d
  {
    if x >= q * d {
      assert d * q > 0;
      QuotientAtLeast(x, d, q);
    } else {
      QuotientBelow(x, d, q);
    }
  }

  ghost predicate AllExpiredRemoved(ms: Months, s: Schedule, offset: int, maxHistory: int, last: int, time: int)
    requires IsCalendar(ms)
  {
    forall p | Expired(ms, s, offset, maxHistory, last, time, p) ::
      RemovesPeriod(ms, s, offset, maxHistory, last, time, p)
  }

  /**
   When a clean makes up for all that expired since the last one, in periods a and b:
   of even length: it comes at most a second earlier in its period than the last did;
   months: 31 days have passed for each month gone by, and as many days back for each of these and of the kept
   months still lead into the first expired month;
   twice a day: never.
   */
  ghost predicate CatchesUp(ms: Months, s: Schedule, offset: int, maxHistory: int, last: int, time: int)
    requires IsCalendar(ms)
  {
    var a, b := PeriodOf(ms, s, Seconds(last), offset), PeriodOf(ms, s, Seconds(time), offset);
    a >= b ||
    match s
    case Monthly =>
      && time - last + SECOND >= (b - a) * (31 * DAY * SECOND)
      && (Seconds(time) + offset) / DAY - 31 * (maxHistory + b - a) >= ms(a - maxHistory)
    case TwiceDaily => false
    case _ => IntoPeriod(ms, s, last, offset, a) <= IntoPeriod(ms, s, time, offset, b) + SECOND
  }

  /** Between two heart beats every file that expires is removed exactly when the second catches up. */
  lemma CleanCatchesUpIff(ms: Months, s: Schedule, offset: int, maxHistory: nat, last: int, time: int)
    requires IsCalendar(ms) && last != 0
    ensures AllExpiredRemoved(ms, s, offset, maxHistory, last, time)
            <==> CatchesUp(ms, s, offset, maxHistory, last, time)
  {
    var a, b := PeriodOf(ms, s, Seconds(last), offset), PeriodOf(ms, s, Seconds(time), offset);
    if a < b {
      if s == Monthly {
        MonthlyCatchesUp(ms, offset, maxHistory, last, time, a, b);
      } else if s == TwiceDaily {
        TwiceDailyLags(ms, offset, maxHistory, last, time, a, b);
      } else {
        UniformCatchesUp(ms, s, offset, maxHistory, last, time, a, b);
      }
    }
  }

  lemma UniformCatchesUp(ms: Months, s: Schedule, offset: int, maxHistory: nat, last: int, time: int, a: int, b: int)
    requires IsCalendar(ms) && Uniform(s) && last != 0
    requires a == PeriodOf(ms, s, Seconds(last), offset) && b == PeriodOf(ms, s, Seconds(time), offset) && a < b
    ensures AllExpiredRemoved(ms, s, offset, maxHistory, last, time)
            <==> IntoPeriod(ms, s, last, offset, a) <= IntoPeriod(ms, s, time, offset, b) + SECOND
  {
    CaughtUp(ms, s, offset, last, time, a, b);
    if Periods(s, last, time) >= b - a {
      forall p | Expired(ms, s, offset, maxHistory, last, time, p)
        ensures RemovesPeriod(ms, s, offset, maxHistory, last, time, p)
      {
        RemovedRange(ms, s, offset, maxHistory, last, time, p);
      }
    } else {
      var p := a - maxHistory;
      assert Expired(ms, s, offset, maxHistory, last, time, p);
      RemovedRange(ms, s, offset, maxHistory, last, time, p);
    }
  }

  lemma TwiceDailyLags(ms: Months, offset: int, maxHistory: nat, last: int, time: int, a: int, b: int)
    requires IsCalendar(ms)
    requires a == PeriodOf(ms, TwiceDaily, Seconds(last), offset) && b == PeriodOf(ms, TwiceDaily, Seconds(time), offset)
    requires a < b
    ensures !AllExpiredRemoved(ms, TwiceDaily, offset, maxHistory, last, time)
  {
    var p := b - maxHistory - 1;
    assert Expired(ms, TwiceDaily, offset, maxHistory, last, time, p);
    forall i | 0 <= i < Periods(TwiceDaily, last, time)
      ensures PeriodOf(ms, TwiceDaily, Seconds(TimeToRemove(TwiceDaily, maxHistory, time, i)), offset) != p
    {
      RemovedPeriod(ms, TwiceDaily, offset, maxHistory, time, i);
    }
    assert !RemovesPeriod(ms, TwiceDaily, offset, maxHistory, last, time, p);
  }

  // ----- Months -----

  /** The month of the i-th removal. */
  ghost function MonthRemoved(ms: Months, offset: int, maxHistory: int, time: int, i: int): int
    requires IsCalendar(ms)
  {
    MonthOf(ms, (Seconds(time) + offset) / DAY - 31 * (maxHistory + 1 + i))
  }

  lemma MonthReached(ms: Months, day: int, m: int)
    requires IsCalendar(ms)
    ensures day >= ms(m) <==> MonthOf(ms, day) >= m
  {
    MonthOrder(ms, m, MonthOf(ms, day) + 1);
    MonthOrder(ms, MonthOf(ms, day), m);
  }

  lemma RemovesMonthIff(ms: Months, offset: int, maxHistory: nat, last: int, time: int, p: int)
    requires IsCalendar(ms)
    ensures RemovesPeriod(ms, Monthly, offset, maxHistory, last, time, p)
            <==> exists i: nat :: i < Periods(Monthly, last, time) && MonthRemoved(ms, offset, maxHistory, time, i) == p
  {
    forall i: nat
      ensures PeriodOf(ms, Monthly, Seconds(TimeToRemove(Monthly, maxHistory, time, i)), offset)
              == MonthRemoved(ms, offset, maxHistory, time, i)
    {
      RemovedPeriod(ms, Monthly, offset, maxHistory, time, i);
    }
    if RemovesPeriod(ms, Monthly, offset, maxHistory, last, time, p) {
      var i :| 0 <= i < Periods(Monthly, last, time)
               && PeriodOf(ms, Monthly, Seconds(TimeToRemove(Monthly, maxHistory, time, i)), offset) == p;
      assert MonthRemoved(ms, offset, maxHistory, time, i) == p;
    }
  }

  /** The i-th removal is for the i-th expired month or an earlier one. */
  lemma RemovedAtMost(ms: Months, offset: int, maxHistory: nat, time: int, i: nat)
    requires IsCalendar(ms)
    ensures MonthRemoved(ms, offset, maxHistory, time, i)
            <= PeriodOf(ms, Monthly, Seconds(time), offset) - maxHistory - 1 - i
  {
    MonthsBack(ms, (Seconds(time) + offset) / DAY, maxHistory + 1 + i);
  }

  /** If every expired month is removed, the i-th removal is for the i-th of them. */
  lemma {:induction false} RemovedInOrder(ms: Months, offset: int, maxHistory: nat, last: int, time: int,
                                          a: int, b: int, j: nat)
    requires IsCalendar(ms) && AllExpiredRemoved(ms, Monthly, offset, maxHistory, last, time) && j < b - a
    requires a == PeriodOf(ms, Monthly, Seconds(last), offset) && b == PeriodOf(ms, Monthly, Seconds(time), offset)
    ensures j < Periods(Monthly, last, time) && MonthRemoved(ms, offset, maxHistory, time, j) == b - maxHistory - 1 - j
    decreases j
  {
    var p := b - maxHistory - 1 - j;
    assert Expired(ms, Monthly, offset, maxHistory, last, time, p);
    RemovesMonthIff(ms, offset, maxHistory, last, time, p);
    var i: nat :| i < Periods(Monthly, last, time) && MonthRemoved(ms, offset, maxHistory, time, i) == p;
    RemovedAtMost(ms, offset, maxHistory, time, i);
    if i < j { RemovedInOrder(ms, offset, maxHistory, last, time, a, b, i); }
  }

  /** Months of at most 31 days: what leads into the first expired month leads into every later one. */
  lemma LeadsInto(ms: Months, day: int, maxHistory: nat, a: int, b: int, j: nat)
    requires IsCalendar(ms) && j < b - a && day - 31 * (maxHistory + b - a) >= ms(a - maxHistory)
    ensures day - 31 * (maxHistory + 1 + j) >= ms(b - maxHistory - 1 - j)
  {
    MonthsApart(ms, a - maxHistory, b - a - 1 - j);
  }

  lemma MonthlyCatchesUp(ms: Months, offset: int, maxHistory: nat, last: int, time: int, a: int, b: int)
    requires IsCalendar(ms) && last != 0 && a < b
    requires a == PeriodOf(ms, Monthly, Seconds(last), offset) && b == PeriodOf(ms, Monthly, Seconds(time), offset)
    ensures AllExpiredRemoved(ms, Monthly, offset, maxHistory, last, time)
            <==> CatchesUp(ms, Monthly, offset, maxHistory, last, time)
  {
    var day := (Seconds(time) + offset) / DAY;
    QuotientIff(time - last + SECOND, 31 * DAY * SECOND, b - a);
    if AllExpiredRemoved(ms, Monthly, offset, maxHistory, last, time) {
      var j := b - a - 1;
      RemovedInOrder(ms, offset, maxHistory, last, time, a, b, j);
      MonthReached(ms, day - 31 * (maxHistory + 1 + j), a - maxHistory);
    } else if CatchesUp(ms, Monthly, offset, maxHistory, last, time) {
      forall p | Expired(ms, Monthly, offset, maxHistory, last, time, p)
        ensures RemovesPeriod(ms, Monthly, offset, maxHistory, last, time, p)
      {
        var j := b - maxHistory - 1 - p;
        LeadsInto(ms, day, maxHistory, a, b, j);
        MonthReached(ms, day - 31 * (maxHistory + 1 + j), p);
        RemovedAtMost(ms, offset, maxHistory, time, j);
        assert MonthRemoved(ms, offset, maxHistory, time, j) == p;
        RemovesMonthIff(ms, offset, maxHistory, last, time, p);
      }
    }
  }

  /** For instance, with heart beats at the starts of two months in a row, the file of a month of less than
      31 days stays. */
  lemma ShortMonthStays(ms: Months, offset: int, p: int)
    requires IsCalendar(ms) && PeriodStart(ms, Monthly, p, offset) != 0
    ensures var last, time := PeriodStart(ms, Monthly, p, offset) * SECOND, PeriodStart(ms, Monthly, p + 1, offset) * SECOND;
            AllExpiredRemoved(ms, Monthly, offset, 0, last, time) <==> ms(p + 1) - ms(p) == 31
  {
    var last, time := PeriodStart(ms, Monthly, p, offset) * SECOND, PeriodStart(ms, Monthly, p + 1, offset) * SECOND;
    StartPeriod(ms, Monthly, p, offset);
    StartPeriod(ms, Monthly, p + 1, offset);
    assert Seconds(last) == PeriodStart(ms, Monthly, p, offset) && Seconds(time) == PeriodStart(ms, Monthly, p + 1, offset);
    assert (Seconds(time) + offset) / DAY == ms(p + 1);
    assert MonthOk(ms, p);
    CleanCatchesUpIff(ms, Monthly, offset, 0, last, time);
  }

  lemma CaughtUp(ms: Months, s: Schedule, offset: int, last: int, time: int, a: int, b: int)
    requires IsCalendar(ms) && Uniform(s) && last != 0
    requires a == PeriodOf(ms, s, Seconds(last), offset) && b == PeriodOf(ms, s, Seconds(time), offset) && a < b
    ensures Periods(s, last, time) >= b - a
            <==> IntoPeriod(ms, s, last, offset, a) <= IntoPeriod(ms, s, time, offset, b) + SECOND
  {
    var x, y := IntoPeriod(ms, s, last, offset, a), IntoPeriod(ms, s, time, offset, b);
    IntoRange(ms, s, offset, last, a);
    IntoRange(ms, s, offset, time, b);
    Elapsed(ms, s, offset, last, time, a, b);
    var d := Duration(s) * SECOND;
    if y - x + SECOND < d {
      Fit(d, time - last + SECOND, b - a, y - x + SECOND);
    } else {
      QuotientAtLeast(time - last + SECOND, d, b - a);
    }
  }

  lemma Elapsed(ms: Months, s: Schedule, offset: int, last: int, time: int, a: int, b: int)
    requires Uniform(s)
    ensures time - last
            == (b - a) * (Duration(s) * SECOND) + IntoPeriod(ms, s, time, offset, b) - IntoPeriod(ms, s, last, offset, a)
  {
    StartsApart(ms, s, offset, a, b);
    var gap := (b - a) * Duration(s);
    assert gap * SECOND == (b - a) * (Duration(s) * SECOND);
  }

  lemma IntoRange(ms: Months, s: Schedule, offset: int, t: int, p: int)
    requires IsCalendar(ms) && Uniform(s) && p == PeriodOf(ms, s, Seconds(t), offset)
    ensures 0 <= IntoPeriod(ms, s, t, offset, p) < Duration(s) * SECOND
  {
    PeriodReached(ms, s, Seconds(t), p, offset);
    PeriodReached(ms, s, Seconds(t), p + 1, offset);
    StartsApart(ms, s, offset, p, p + 1);
  }
}
