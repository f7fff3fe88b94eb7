/** The proleptic Gregorian calendar and the C library's conversions between
    civil time and instants.  An instant is a whole number of seconds since
    1970-01-01T00:00:00Z; a local zone is a constant number of seconds east of UTC. */
module Civil {

  // Days from 0001-01-01 to 1970-01-01.
  const EPOCH_DAY := 719162

  predicate IsLeap(y: int) {
    y % 4 == 0 && (y % 100 != 0 || y % 400 == 0)
  }

  function DaysInYear(y: int): int {
    if IsLeap(y) then 366 else 365
  }

  function DaysInMonth(y: int, m: int): (n: int)
    requires 1 <= m <= 12
    ensures 28 <= n <= 31
  {
    if m == 2 then if IsLeap(y) then 29 else 28
    else if m == 4 || m == 6 || m == 9 || m == 11 then 30
    else 31
  }

  datatype Date = Date(y: int, m: int, d: int)

  predicate IsDate(c: Date) {
    1 <= c.m <= 12 && 1 <= c.d <= DaysInMonth(c.y, c.m)
  }

  function NextDate(c: Date): (r: Date)
    requires IsDate(c)
    ensures IsDate(r)
  {
    if c.d < DaysInMonth(c.y, c.m) then Date(c.y, c.m, c.d + 1)
    else if c.m < 12 then Date(c.y, c.m + 1, 1)
    else Date(c.y + 1, 1, 1)
  }

  function DaysBeforeYear(y: int): int {
    365 * (y - 1) + (y - 1) / 4 - (y - 1) / 100 + (y - 1) / 400
  }

  function DaysBeforeMonth(y: int, m: int): (n: int)
    requires 1 <= m <= 13
    ensures n >= 28 * (m - 1)
    decreases m
  {
    if m == 1 then 0 else DaysBeforeMonth(y, m - 1) + DaysInMonth(y, m - 1)
  }

  // Days from 1970-01-01 to the first of month m of year y, plus d - 1.
  function DayNumber(y: int, m: int, d: int): int
    requires 1 <= m <= 12
  {
    DaysBeforeYear(y) + DaysBeforeMonth(y, m) + d - 1 - EPOCH_DAY
  }

  lemma YearLength(y: int)
    ensures DaysBeforeYear(y + 1) == DaysBeforeYear(y) + DaysInYear(y)
    ensures DaysBeforeMonth(y, 13) == DaysInYear(y)
  {
    hide DaysBeforeMonth;
    LeapDays(y);
    MonthsFillYear(y);
  }

  lemma LeapDays(y: int)
    ensures y / 4 == (y - 1) / 4 + (if y % 4 == 0 then 1 else 0)
    ensures y / 100 == (y - 1) / 100 + (if y % 100 == 0 then 1 else 0)
    ensures y / 400 == (y - 1) / 400 + (if y % 400 == 0 then 1 else 0)
    ensures (y % 400 == 0 ==> y % 100 == 0) && (y % 100 == 0 ==> y % 4 == 0)
  {
  }

  lemma MonthsFillYear(y: int)
    ensures DaysBeforeMonth(y, 13) == DaysInYear(y)
  {
    hide IsLeap;
    assert DaysBeforeMonth(y, 4) == 31 + DaysInMonth(y, 2) + 31;
    assert DaysBeforeMonth(y, 7) == DaysBeforeMonth(y, 4) + 91;
    assert DaysBeforeMonth(y, 10) == DaysBeforeMonth(y, 7) + 92;
    assert DaysBeforeMonth(y, 13) == DaysBeforeMonth(y, 10) + 92;
  }

  /** DayNumber is the calendar's own day count: zero at the epoch and one more
      at every following date. */
  lemma DayNumberCountsDays(c: Date)
    requires IsDate(c)
    ensures DayNumber(1970, 1, 1) == 0
    ensures var n := NextDate(c); DayNumber(n.y, n.m, n.d) == DayNumber(c.y, c.m, c.d) + 1
  {
    assert DayNumber(1970, 1, 1) == 0;
    hide DaysBeforeYear, DaysInMonth;
    YearLength(c.y);
  }

  lemma {:induction false} YearsAreOrdered(a: int, b: int)
    requires a < b
    ensures DaysBeforeYear(a + 1) <= DaysBeforeYear(b)
    decreases b - a
  {
  }

  // The year, within the 400-year cycle that starts at year 1, of day r of it.
  function YearInCycle(r: int, k: int): (y: int)
    requires 1 <= k && 0 <= r < DaysBeforeYear(k + 1)
    ensures 1 <= y <= k && DaysBeforeYear(y) <= r < DaysBeforeYear(y + 1)
    decreases k
  {
    if DaysBeforeYear(k) <= r then k
    else assert k > 1; YearInCycle(r, k - 1)
  }

  lemma CyclesRepeat(y: int, c: int)
    ensures DaysBeforeYear(y + 400 * c) == DaysBeforeYear(y) + 146097 * c
  {
    assert (y - 1 + 400 * c) / 4 == (y - 1) / 4 + 100 * c;
    assert (y - 1 + 400 * c) / 100 == (y - 1) / 100 + 4 * c;
    assert (y - 1 + 400 * c) / 400 == (y - 1) / 400 + c;
  }

  lemma CycleLength()
    ensures DaysBeforeYear(401) == 146097
  {
  }

  // The year of the day that is z days after 0001-01-01.
  function YearOf(z: int): (y: int)
    ensures DaysBeforeYear(y) <= z < DaysBeforeYear(y + 1)
  {
    hide DaysBeforeYear;
    var c := z / 146097;
    CycleLength();
    var y := YearInCycle(z % 146097, 400);
    CyclesRepeat(y, c);
    CyclesRepeat(y + 1, c);
    y + 400 * c
  }

  // The month of day r of year y.
  function MonthIn(y: int, r: int, k: int): (m: int)
    requires 1 <= k <= 12 && 0 <= r < DaysBeforeMonth(y, k + 1)
    ensures 1 <= m <= k && DaysBeforeMonth(y, m) <= r < DaysBeforeMonth(y, m + 1)
    decreases k
  {
    if DaysBeforeMonth(y, k) <= r then k
    else MonthIn(y, r, k - 1)
  }

  /** The date of a day number. */
  function DateOf(day: int): (c: Date)
    ensures IsDate(c) && DayNumber(c.y, c.m, c.d) == day
  {
    var z := day + EPOCH_DAY;
    var y := YearOf(z);
    YearLength(y);
    var r := z - DaysBeforeYear(y);
    var m := MonthIn(y, r, 12);
    Date(y, m, r - DaysBeforeMonth(y, m) + 1)
  }

  // A date lies inside its month, and its month inside its year.
  lemma DateBounds(c: Date)
    requires IsDate(c)
    ensures DaysBeforeMonth(c.y, c.m) + c.d <= DaysInYear(c.y)
  {
    YearLength(c.y);
    MonthsAreOrdered(c.y, c.m, 13);
  }

  lemma {:induction false} MonthsAreOrdered(y: int, a: int, b: int)
    requires 1 <= a < b <= 13
    ensures DaysBeforeMonth(y, a) + DaysInMonth(y, a) <= DaysBeforeMonth(y, b)
    decreases b
  {
    if a + 1 < b {
      MonthsAreOrdered(y, a, b - 1);
    }
  }

  predicate IsEarlier(a: Date, b: Date) {
    a.y < b.y || (a.y == b.y && (a.m < b.m || (a.m == b.m && a.d < b.d)))
  }

  /** Day numbers order dates as the calendar does. */
  lemma DayNumberIsMonotone(a: Date, b: Date)
    requires IsDate(a) && IsDate(b) && IsEarlier(a, b)
    ensures DayNumber(a.y, a.m, a.d) < DayNumber(b.y, b.m, b.d)
  {
    DateBounds(a);
    if a.y < b.y {
      YearsAreOrdered(a.y, b.y);
      YearLength(a.y);
    } else if a.m < b.m {
      MonthsAreOrdered(a.y, a.m, b.m);
    }
  }

  /** DateOf is the exact inverse of DayNumber on dates. */
  lemma DateOfInvertsDayNumber(c: Date)
    requires IsDate(c)
    ensures DateOf(DayNumber(c.y, c.m, c.d)) == c
  {
    var r := DateOf(DayNumber(c.y, c.m, c.d));
    if IsEarlier(r, c) { DayNumberIsMonotone(r, c); }
    if IsEarlier(c, r) { DayNumberIsMonotone(c, r); }
  }

  /** Broken-down time.  `mon` counts from 0 as in the C struct; `year` is the
      full year.  Fields may be out of range, as they are before normalisation. */
  datatype Tm = Tm(year: int, mon: int, mday: int, hour: int, min: int, sec: int)

  predicate IsNormal(tm: Tm) {
    && 0 <= tm.mon < 12
    && IsDate(Date(tm.year, tm.mon + 1, tm.mday))
    && 0 <= tm.hour < 24 && 0 <= tm.min < 60 && 0 <= tm.sec < 60
  }

  // The day number of the first day of absolute month k, where k = 12 * year + mon.
  function MonthStart(k: int): int {
    DayNumber(k / 12, k % 12 + 1, 1)
  }

  /** `_mkgmtime`: normalises month overflow into years, then every other field
      into seconds. */
  function Mkgmtime(tm: Tm): int {
    86_400 * (MonthStart(12 * tm.year + tm.mon) + tm.mday - 1)
    + ClockSeconds(tm.hour, tm.min, tm.sec)
  }

  /** `mktime` in a zone `zone` seconds east of UTC. */
  function Mktime(tm: Tm, zone: int): int {
    Mkgmtime(tm) - zone
  }

  /** `gmtime`. */
  function Gmtime(t: int): (tm: Tm)
    ensures IsNormal(tm)
  {
    var c := DateOf(t / 86_400);
    var s := t % 86_400;
    Tm(c.y, c.m - 1, c.d, s / 3600, s % 3600 / 60, s % 60)
  }

  /** `localtime_s`. */
  function Localtime(t: int, zone: int): (tm: Tm)
    ensures IsNormal(tm)
  {
    Gmtime(t + zone)
  }

  // tm_wday with Sunday renumbered from 0 to 7: 1 is Monday, 7 is Sunday.
  function DayOfWeek(day: int): (w: int)
    ensures 1 <= w <= 7
  {
    (day + 3) % 7 + 1
  }

  /** Day 0, 1970-01-01, is a Thursday, and weekdays follow each other. */
  lemma WeekdaysFollow(day: int)
    ensures DayOfWeek(0) == 4
    ensures DayOfWeek(day + 1) == if DayOfWeek(day) == 7 then 1 else DayOfWeek(day) + 1
  {
  }

  function LocalDay(t: int, zone: int): int {
    (t + zone) / 86_400
  }

  // A time of day in seconds; splitting one and joining it again are inverse.
  function ClockSeconds(hour: int, min: int, sec: int): int {
    3600 * hour + 60 * min + sec
  }

  lemma ClockSplits(s: int)
    requires 0 <= s < 86_400
    ensures ClockSeconds(s / 3600, s % 3600 / 60, s % 60) == s
  {
    assert s % 3600 % 60 == s % 60;
  }

  lemma DivideBy3600(x: int, q: int, r: int)
    requires x == 3600 * q + r && 0 <= r < 3600
    ensures x / 3600 == q && x % 3600 == r
  {
  }

  lemma DivideBy60(x: int, q: int, r: int)
    requires x == 60 * q + r && 0 <= r < 60
    ensures x / 60 == q && x % 60 == r
  {
  }

  lemma ClockJoins(hour: int, min: int, sec: int)
    requires 0 <= hour < 24 && 0 <= min < 60 && 0 <= sec < 60
    ensures var s := ClockSeconds(hour, min, sec);
            0 <= s < 86_400 && s / 3600 == hour && s % 3600 / 60 == min && s % 60 == sec
  {
    var s := ClockSeconds(hour, min, sec);
    DivideBy3600(s, hour, 60 * min + sec);
    DivideBy60(60 * min + sec, min, sec);
    DivideBy60(s, 60 * hour + min, sec);
  }

  lemma NormalInstant(tm: Tm)
    requires IsNormal(tm)
    ensures Mkgmtime(tm)
         == 86_400 * DayNumber(tm.year, tm.mon + 1, tm.mday) + ClockSeconds(tm.hour, tm.min, tm.sec)
  {
    var k := 12 * tm.year + tm.mon;
    assert k / 12 == tm.year && k % 12 == tm.mon;
    assert MonthStart(k) == DayNumber(tm.year, tm.mon + 1, 1);
  }

  /** Civil time and instants are inverse in both directions. */
  lemma MkgmtimeInvertsGmtime(t: int)
    ensures Mkgmtime(Gmtime(t)) == t
  {
    hide Mkgmtime, DayNumber, IsNormal;
    NormalInstant(Gmtime(t));
    ClockSplits(t % 86_400);
  }

  lemma GmtimeInvertsMkgmtime(tm: Tm)
    requires IsNormal(tm)
    ensures Gmtime(Mkgmtime(tm)) == tm
  {
    var day := DayNumber(tm.year, tm.mon + 1, tm.mday);
    var s := ClockSeconds(tm.hour, tm.min, tm.sec);
    ClockJoins(tm.hour, tm.min, tm.sec);
    NormalInstant(tm);
    DayAndClock(Mkgmtime(tm), day, s);
    DateOfInvertsDayNumber(Date(tm.year, tm.mon + 1, tm.mday));
  }

  lemma DayAndClock(t: int, day: int, s: int)
    requires t == 86_400 * day + s && 0 <= s < 86_400
    ensures t / 86_400 == day && t % 86_400 == s
  {
  }

  lemma MonthStartStep(k: int)
    ensures MonthStart(k + 1) == MonthStart(k) + DaysInMonth(k / 12, k % 12 + 1)
  {
    YearLength(k / 12);
    hide DaysBeforeYear, DaysInMonth;
    if k % 12 == 11 {
      assert (k + 1) / 12 == k / 12 + 1 && (k + 1) % 12 == 0;
    } else {
      assert (k + 1) / 12 == k / 12 && (k + 1) % 12 == k % 12 + 1;
    }
  }

  lemma MkgmtimeOfMonth(tm: Tm)
    ensures Mkgmtime(tm)
         == 86_400 * (MonthStart(12 * tm.year + tm.mon) + tm.mday - 1) + ClockSeconds(tm.hour, tm.min, tm.sec)
  {
  }

  // Midnight of a day, counted from the start of its absolute month.
  lemma MidnightInstant(tm: Tm, k: int)
    requires tm.hour == 0 && tm.min == 0 && tm.sec == 0 && 12 * tm.year + tm.mon == k
    ensures Mkgmtime(tm) == 86_400 * (MonthStart(k) + tm.mday - 1)
  {
    hide MonthStart, Mkgmtime;
    MkgmtimeOfMonth(tm);
  }

  /** Later months start later, by at least 28 days a month. */
  lemma {:induction false} MonthStartGrows(j: int, k: int)
    requires j <= k
    ensures MonthStart(k) >= MonthStart(j) + 28 * (k - j)
    decreases k - j
  {
    hide MonthStart;
    if j < k {
      MonthStartGrows(j, k - 1);
      MonthStartStep(k - 1);
    }
  }
}
