/**
 The Gregorian calendar at a fixed offset from UTC: localtime and mktime as far
 as the rollover schedules use them.  Days are counted from 1970-01-01, months
 from January of year 0.
 */
module Calendar {

  const DAY := 86400

  predicate IsLeap(y: int) {
    y % 4 == 0 && (y % 100 != 0 || y % 400 == 0)
  }

  /** Leap years before year y, counted from an arbitrary origin. */
  function Leaps(y: int): int {
    (y - 1) / 4 - (y - 1) / 100 + (y - 1) / 400
  }

  function YearStart(y: int): int {
    365 * (y - 1970) + Leaps(y) - 477
  }

  /** Days of the year before month m. */
  function DaysBefore(leap: bool, m: int): int
    requires 0 <= m <= 12
  {
    var l := if leap then 1 else 0;
    if m == 0 then 0 else if m == 1 then 31 else if m == 2 then 59 + l else if m == 3 then 90 + l
    else if m == 4 then 120 + l else if m == 5 then 151 + l else if m == 6 then 181 + l
    else if m == 7 then 212 + l else if m == 8 then 243 + l else if m == 9 then 273 + l
    else if m == 10 then 304 + l else if m == 11 then 334 + l else 365 + l
  }

  /** First day of month k in the Gregorian calendar. */
  function Gregorian(k: int): int {
    YearStart(k / 12) + DaysBefore(IsLeap(k / 12), k % 12)
  }

  lemma Quotients(n: int)
    ensures (n + 1) / 4 - n / 4 == if (n + 1) % 4 == 0 then 1 else 0
    ensures (n + 1) / 100 - n / 100 == if (n + 1) % 100 == 0 then 1 else 0
    ensures (n + 1) / 400 - n / 400 == if (n + 1) % 400 == 0 then 1 else 0
    ensures n % 400 == 0 ==> n % 100 == 0
    ensures n % 100 == 0 ==> n % 4 == 0
  {
  }

  lemma YearLength(y: int)
    ensures YearStart(y + 1) - YearStart(y) == if IsLeap(y) then 366 else 365
  {
    Quotients(y - 1);
    Quotients(y);
  }

  lemma GregorianMonth(k: int)
    ensures 28 <= Gregorian(k + 1) - Gregorian(k) <= 31
  {
    var y, m := k / 12, k % 12;
    if m == 11 {
      assert (k + 1) / 12 == y + 1 && (k + 1) % 12 == 0;
      YearLength(y);
    } else {
      assert (k + 1) / 12 == y && (k + 1) % 12 == m + 1;
    }
  }

  /** Two known dates: 1970-01-01 and 2100-03-01. */
  lemma GregorianAnchors()
    ensures Gregorian(12 * 1970) == 0 && Gregorian(12 * 2100 + 2) == 47541
  {
  }

  // ----- What the schedules need to know about months -----

  /** The first day of each month. */
  type Months = int -> int

  predicate MonthOk(ms: Months, k: int) {
    28 <= ms(k + 1) - ms(k) <= 31
  }

  ghost predicate IsCalendar(ms: Months) {
    forall k :: MonthOk(ms, k)
  }

  lemma GregorianIsCalendar()
    ensures IsCalendar(Gregorian)
  {
    forall k ensures MonthOk(Gregorian, k) { GregorianMonth(k); }
  }

  lemma {:induction false} MonthsApart(ms: Months, k: int, n: nat)
    requires IsCalendar(ms)
    ensures 28 * n <= ms(k + n) - ms(k) <= 31 * n
  {
    if n > 0 {
      MonthsApart(ms, k, n - 1);
      assert MonthOk(ms, k + n - 1);
    }
  }

  lemma MonthOrder(ms: Months, k: int, l: int)
    requires IsCalendar(ms)
    ensures k < l <==> ms(k) < ms(l)
  {
    if k < l { MonthsApart(ms, k, l - k); } else { MonthsApart(ms, l, k - l); }
  }

  /** day belongs to month m. */
  predicate InMonth(ms: Months, day: int, m: int) {
    ms(m) <= day < ms(m + 1)
  }

  ghost function MonthUp(ms: Months, day: int, k: int): (m: int)
    requires IsCalendar(ms) && ms(k) <= day
    ensures InMonth(ms, day, m)
    decreases day - ms(k)
  {
    assert MonthOk(ms, k);
    if day < ms(k + 1) then k else MonthUp(ms, day, k + 1)
  }

  ghost function MonthDown(ms: Months, day: int, k: int): (m: int)
    requires IsCalendar(ms) && day < ms(k + 1)
    ensures InMonth(ms, day, m)
    decreases ms(k + 1) - day
  {
    assert MonthOk(ms, k);
    if ms(k) <= day then k else MonthDown(ms, day, k - 1)
  }

  /** The month day belongs to. */
  ghost function MonthOf(ms: Months, day: int): (m: int)
    requires IsCalendar(ms)
    ensures InMonth(ms, day, m)
  {
    if ms(0) <= day then MonthUp(ms, day, 0) else MonthDown(ms, day, -1)
  }

  lemma MonthOfUnique(ms: Months, day: int, m: int)
    requires IsCalendar(ms) && InMonth(ms, day, m)
    ensures m == MonthOf(ms, day)
  {
    MonthOrder(ms, m, MonthOf(ms, day) + 1);
    MonthOrder(ms, MonthOf(ms, day), m + 1);
  }

  /** Going back 31 * n days goes back at least n months. */
  lemma BackByMonths(ms: Months, day: int, n: nat)
    requires IsCalendar(ms)
    ensures MonthOf(ms, day - 31 * n) <= MonthOf(ms, day) - n
  {
    var m := MonthOf(ms, day);
    MonthsApart(ms, m + 1 - n, n);
    MonthOrder(ms, MonthOf(ms, day - 31 * n), m + 1 - n);
  }

  // ----- struct tm -----

  datatype Tm = Tm(year: int, mon: int, mday: int, hour: int, min: int, sec: int, wday: int)

  /** localtime at a fixed offset east of UTC. */
  ghost function LocalTime(ms: Months, t: int, offset: int): (tm: Tm)
    requires IsCalendar(ms)
  {
    var day, s := (t + offset) / DAY, (t + offset) % DAY;
    var k := MonthOf(ms, day);
    Tm(k / 12, k % 12, day - ms(k) + 1, s / 3600, s % 3600 / 60, s % 60, (day + 4) % 7)
  }

  /** mktime: fields out of range carry over into the next larger ones. */
  function MkTime(ms: Months, tm: Tm, offset: int): int {
    (ms(12 * tm.year + tm.mon) + tm.mday - 1) * DAY + tm.hour * 3600 + tm.min * 60 + tm.sec - offset
  }

  lemma RemainderIs(x: int, n: int, q: int, r: int)
    requires 0 <= r < n && x == n * q + r
    ensures x % n == r
  {
    var d := x / n - q;
    assert n * d == r - x % n;
    assert d > 0 ==> n * d >= n;
    assert d < 0 ==> n * d <= -n;
  }

  lemma ClockFields(s: int)
    requires 0 <= s
    ensures s == s / 3600 * 3600 + s % 3600 / 60 * 60 + s % 60
  {
    var r := s % 3600;
    assert s == s / 3600 * 3600 + r;
    RemainderIs(s, 60, 60 * (s / 3600) + r / 60, r % 60);
  }

  /** mktime undoes localtime. */
  lemma MkTimeOfLocalTime(ms: Months, t: int, offset: int)
    requires IsCalendar(ms)
    ensures MkTime(ms, LocalTime(ms, t, offset), offset) == t
  {
    ClockFields((t + offset) % DAY);
    var k := MonthOf(ms, (t + offset) / DAY);
    assert 12 * (k / 12) + k % 12 == k;
  }
}
