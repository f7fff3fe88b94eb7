/** What the expanders emit, stated without their loops, and where that departs
    from section 3.3.10 of RFC 5545. */
module RecurrenceLaws {
  import opened Civil
  import opened DateTime
  import opened Events
  import opened Recurrence
  import opened Selection

  ghost predicate StrictlySorted(r: seq<int>) {
    forall i, j :: 0 <= i < j < |r| ==> r[i] < r[j]
  }

  ghost predicate Distinct(r: seq<int>) {
    forall i, j :: 0 <= i < j < |r| ==> r[i] != r[j]
  }

  ghost predicate EmitsAt(s: Series, q: Query, n: nat, t: int) {
    exists j: nat :: j < n && Taken(s, j, q) && Slot(s, j) == t
  }

  lemma {:induction false} StartsMember(s: Series, q: Query, n: nat, t: int)
    ensures t in Starts(s, q, n) <==> EmitsAt(s, q, n, t)
  {
    hide Taken, Slot;
    if n > 0 {
      StartsMember(s, q, n - 1, t);
      assert Taken(s, n - 1, q) && Slot(s, n - 1) == t ==> EmitsAt(s, q, n, t);
    }
  }

  lemma {:induction false} GrowingStarts(s: Series, q: Query, n: nat)
    requires forall i: nat, j: nat :: i < j < n ==> Slot(s, i) < Slot(s, j)
    ensures StrictlySorted(Starts(s, q, n))
  {
    hide Taken, Slot;
    if n > 0 {
      GrowingStarts(s, q, n - 1);
      var r := Starts(s, q, n - 1);
      forall i | 0 <= i < |r|
        ensures r[i] < Slot(s, n - 1)
      {
        StartsMember(s, q, n - 1, r[i]);
      }
    }
  }

  lemma {:induction false} DistinctStarts(s: Series, q: Query, n: nat)
    requires forall i: nat, j: nat :: i < j < n && Taken(s, i, q) && Taken(s, j, q) ==> Slot(s, i) != Slot(s, j)
    ensures Distinct(Starts(s, q, n))
  {
    hide Taken, Slot;
    if n > 0 {
      DistinctStarts(s, q, n - 1);
      var r := Starts(s, q, n - 1);
      forall i | 0 <= i < |r| && Taken(s, n - 1, q)
        ensures r[i] != Slot(s, n - 1)
      {
        StartsMember(s, q, n - 1, r[i]);
      }
    }
  }

  // ---- Daily ------------------------------------------------------------

  // t is n days of 24 hours after start.
  predicate IsDay(t: int, start: int, n: int) {
    t == start + 86_400 * n
  }

  /** t is one of the first 365 steps of INTERVAL days from DTSTART. */
  ghost predicate OnDailyStep(t: int, start: int, interval: nat) {
    exists i: nat :: i < 365 && IsDay(t, start, i * interval)
  }

  /** For INTERVAL >= 1 the daily expander emits, in increasing order and once
      each, exactly the wanted steps. */
  lemma DailyIsExact(start: int, q: Query)
    requires q.rule.freq == DailyFreq && q.rule.interval >= 1
    ensures StrictlySorted(ExpandedStarts(start, q))
    ensures forall t :: t in ExpandedStarts(start, q) <==> OnDailyStep(t, start, q.rule.interval) && Wanted(t, q)
  {
    hide Wanted;
    var s := DailyOf(start, q);
    forall i: nat, j: nat | i < j < 365
      ensures Slot(s, i) < Slot(s, j)
    {
      DailyGrows(start, q.rule.interval, i, j);
    }
    GrowingStarts(s, q, 365);
    forall t
      ensures t in ExpandedStarts(start, q) <==> OnDailyStep(t, start, q.rule.interval) && Wanted(t, q)
    {
      StartsMember(s, q, 365, t);
      if i: nat :| i < 365 && Taken(s, i, q) && Slot(s, i) == t {
        assert IsDay(t, start, i * q.rule.interval);
      }
      if OnDailyStep(t, start, q.rule.interval) && Wanted(t, q) {
        var i: nat :| i < 365 && IsDay(t, start, i * q.rule.interval);
        assert Taken(s, i, q) && Slot(s, i) == t;
      }
    }
  }

  lemma {:induction false} StartsGrow(s: Series, q: Query, m: nat, n: nat)
    requires m <= n
    ensures Starts(s, q, m) <= Starts(s, q, n)
  {
    hide Taken, Slot;
    if m < n {
      StartsGrow(s, q, m, n - 1);
    }
  }

  // Two emitted slots at the same instant are a duplicate.
  lemma SlotsRepeat(s: Series, q: Query, i: nat, j: nat, n: nat)
    requires i < j < n && Taken(s, i, q) && Taken(s, j, q) && Slot(s, i) == Slot(s, j)
    ensures !Distinct(Starts(s, q, n))
  {
    hide Taken, Slot;
    var r, t := Starts(s, q, j), Slot(s, j);
    StartsMember(s, q, j, t);
    assert EmitsAt(s, q, j, t);
    var k :| 0 <= k < |r| && r[k] == t;
    assert Starts(s, q, j + 1) == r + [t];
    StartsGrow(s, q, j + 1, n);
    assert Starts(s, q, n)[k] == Starts(s, q, n)[|r|];
  }

  /** INTERVAL=0, which the parser lets through, repeats DTSTART 365 times: the
      daily expander is free of duplicates exactly when the interval is positive
      or DTSTART itself is not wanted. */
  lemma DailyIsDistinctIff(start: int, q: Query)
    requires q.rule.freq == DailyFreq
    ensures Distinct(ExpandedStarts(start, q)) <==> q.rule.interval >= 1 || !Wanted(start, q)
  {
    hide Wanted;
    var s := DailyOf(start, q);
    if q.rule.interval >= 1 {
      DailyIsExact(start, q);
    } else {
      assert forall j: nat :: Slot(s, j) == start;
      if Wanted(start, q) {
        SlotsRepeat(s, q, 0, 1, 365);
      } else {
        NothingAfter(s, q, 0, 365);
      }
    }
  }

  // ---- Weekly -----------------------------------------------------------

  // A weekday that BYDAY lists, or DTSTART's own where it lists none.
  predicate IsAskedWeekday(d: int, start: int, q: Query) {
    if q.rule.byday == {} then d == DayOfWeek(LocalDay(start, q.zone)) else d in q.rule.byday
  }

  // Day n after DTSTART belongs to the series: its block of seven days is one that
  // INTERVAL keeps, and its weekday is asked for.
  predicate IsAskedDay(n: nat, start: int, q: Query)
    requires q.rule.interval >= 1
  {
    n / 7 % q.rule.interval == 0 && IsAskedWeekday(DayOfWeek(LocalDay(start + 86_400 * n, q.zone)), start, q)
  }

  // Its block is one of the 520 that are walked through.
  predicate InBlocks(n: nat, interval: nat)
    requires interval >= 1
  {
    n / 7 / interval < 520
  }

  predicate OnWeeklyDay(n: nat, start: int, q: Query)
    requires q.rule.interval >= 1
  {
    IsAskedDay(n, start, q) && InBlocks(n, q.rule.interval)
  }

  lemma DayOfWeekAdvances(start: int, zone: int, n: int)
    ensures DayOfWeek(LocalDay(start + 86_400 * n, zone))
         == (DayOfWeek(LocalDay(start, zone)) - 1 + n) % 7 + 1
  {
    assert LocalDay(start + 86_400 * n, zone) == LocalDay(start, zone) + n by {
      DaysAdvance(start + zone, n);
      assert start + 86_400 * n + zone == start + zone + 86_400 * n;
    }
    hide DayOfWeek, LocalDay;
    WeekAdvances(LocalDay(start, zone), n);
  }

  lemma DaysAdvance(t: int, n: int)
    ensures (t + 86_400 * n) / 86_400 == t / 86_400 + n
  {
  }

  lemma WeekAdvances(day: int, n: int)
    ensures DayOfWeek(day + n) == (DayOfWeek(day) - 1 + n) % 7 + 1
  {
  }

  lemma MultipleDivides(w: nat, k: nat)
    requires k >= 1
    ensures w * k / k == w && w * k % k == 0
  {
    var d, r := w * k / k, w * k % k;
    assert (w - d) * k == r;
    if d < w {
      Product(1, w - d, k);
    } else if d > w {
      Product(1, d - w, k);
    }
  }

  lemma QuotientMultiple(m: nat, k: nat)
    requires k >= 1 && m % k == 0
    ensures m / k * k == m
  {
  }

  // Slot j of a weekly series is day n after DTSTART on weekday j % 7 + 1, and the
  // block and weekday give j back.
  lemma WeeklySlotDay(start: int, q: Query, j: nat)
    requires q.rule.interval >= 1 && q.rule.freq == WeeklyFreq
    ensures var s := WeeklyOf(start, q);
            var n := WeeklyOffset(q.rule.interval, s.dow, j);
            && Slot(s, j) == start + 86_400 * n
            && n / 7 == j / 7 * q.rule.interval
            && n / 7 % q.rule.interval == 0 && n / 7 / q.rule.interval == j / 7
            && DayOfWeek(LocalDay(Slot(s, j), q.zone)) == j % 7 + 1
  {
    var dow := DayOfWeek(LocalDay(start, q.zone));
    var n := WeeklyOffset(q.rule.interval, dow, j);
    MultipleDivides(j / 7, q.rule.interval);
    DayOfWeekAdvances(start, q.zone, n);
    Product(0, j / 7, q.rule.interval);
    WeekdayArithmetic(j % 7 + 1, dow, j / 7 * q.rule.interval);
  }

  lemma WeekdayArithmetic(day: Weekday, dow: Weekday, blocks: nat)
    ensures var n := (day - dow + 7) % 7 + 7 * blocks;
            n / 7 == blocks && (dow - 1 + n) % 7 + 1 == day
  {
  }

  lemma DayAndBlock(dow: Weekday, n: nat)
    ensures ((dow - 1 + n) % 7 + 1 - dow + 7) % 7 == n % 7
  {
  }

  // Every such day is a slot.
  lemma WeeklyDaySlot(start: int, q: Query, n: nat) returns (j: nat)
    requires q.rule.interval >= 1 && q.rule.freq == WeeklyFreq
    requires n / 7 % q.rule.interval == 0
    ensures j / 7 == n / 7 / q.rule.interval
    ensures j % 7 + 1 == DayOfWeek(LocalDay(start + 86_400 * n, q.zone))
    ensures Slot(WeeklyOf(start, q), j) == start + 86_400 * n
  {
    var dow := DayOfWeek(LocalDay(start, q.zone));
    var w := n / 7 / q.rule.interval;
    QuotientMultiple(n / 7, q.rule.interval);
    DayOfWeekAdvances(start, q.zone, n);
    var d := (dow - 1 + n) % 7;
    j := 7 * w + d;
    hide DayOfWeek, LocalDay;
    assert j / 7 == w && j % 7 == d;
    DayAndBlock(dow, n);
    assert WeeklyOffset(q.rule.interval, dow, j) == n % 7 + 7 * (n / 7);
  }

  /** For INTERVAL >= 1 the weekly expander emits, once each, exactly the wanted
      days of the emitted blocks; breaking off at the deadline loses none. */
  lemma WeeklyIsExact(start: int, q: Query)
    requires q.rule.freq == WeeklyFreq && q.rule.interval >= 1
    ensures Distinct(ExpandedStarts(start, q))
    ensures forall t :: t in ExpandedStarts(start, q) <==>
              Wanted(t, q) && exists n: nat :: IsDay(t, start, n) && OnWeeklyDay(n, start, q)
  {
    hide Wanted, LocalDay, DayOfWeek, Slot;
    var s := WeeklyOf(start, q);
    forall i: nat, j: nat | i < j < 3_640
      ensures Slot(s, i) != Slot(s, j)
    {
      WeeklySlotDay(start, q, i);
      WeeklySlotDay(start, q, j);
    }
    DistinctStarts(s, q, 3_640);
    forall t
      ensures t in ExpandedStarts(start, q) <==>
              Wanted(t, q) && exists n: nat :: IsDay(t, start, n) && OnWeeklyDay(n, start, q)
    {
      StartsMember(s, q, 3_640, t);
      if EmitsAt(s, q, 3_640, t) {
        var j: nat :| j < 3_640 && Taken(s, j, q) && Slot(s, j) == t;
        WeeklySlotDay(start, q, j);
        assert OnWeeklyDay(WeeklyOffset(q.rule.interval, s.dow, j), start, q);
      }
      if n: nat :| Wanted(t, q) && IsDay(t, start, n) && OnWeeklyDay(n, start, q) {
        var j := WeeklyDaySlot(start, q, n);
        assert Taken(s, j, q) && Slot(s, j) == t;
      }
    }
  }

  /** Without BYDAY a weekly series steps from DTSTART by whole multiples of its
      interval. */
  lemma PlainWeeklyIsExact(start: int, q: Query, t: int)
    requires q.rule.freq == WeeklyFreq && q.rule.interval >= 1 && q.rule.byday == {}
    ensures t in ExpandedStarts(start, q)
        <==> Wanted(t, q) && exists i: nat :: i < 520 && IsDay(t, start, 7 * (i * q.rule.interval))
  {
    hide Wanted, LocalDay, DayOfWeek, ExpandedStarts;
    var k := q.rule.interval;
    WeeklyIsExact(start, q);
    if n: nat :| IsDay(t, start, n) && OnWeeklyDay(n, start, q) {
      DayOfWeekAdvances(start, q.zone, n);
      SameWeekday(DayOfWeek(LocalDay(start, q.zone)), n);
      QuotientMultiple(n / 7, k);
      assert IsDay(t, start, 7 * (n / 7 / k * k));
    }
    if i: nat :| i < 520 && IsDay(t, start, 7 * (i * k)) {
      Product(0, i, k);
      MultipleDivides(i, k);
      DayOfWeekAdvances(start, q.zone, 7 * (i * k));
      assert OnWeeklyDay(7 * (i * k), start, q) by {
        SameWeekday(DayOfWeek(LocalDay(start, q.zone)), 7 * (i * k));
        assert 7 * (i * k) / 7 == i * k;
      }
    }
  }

  lemma SameWeekday(dow: Weekday, n: nat)
    ensures (dow - 1 + n) % 7 + 1 == dow <==> n % 7 == 0
    ensures n % 7 == 0 ==> 7 * (n / 7) == n
  {
  }

  // Day n after DTSTART is on an asked weekday and wanted.
  predicate IsWantedDay(n: nat, start: int, q: Query) {
    IsAskedWeekday(DayOfWeek(LocalDay(start + 86_400 * n, q.zone)), start, q) && Wanted(start + 86_400 * n, q)
  }

  /** INTERVAL=0 repeats the first seven days 520 times: the weekly expander is free
      of duplicates exactly when the interval is positive or none of those days is
      asked for and wanted. */
  lemma WeeklyIsDistinctIff(start: int, q: Query)
    requires q.rule.freq == WeeklyFreq
    ensures Distinct(ExpandedStarts(start, q))
        <==> q.rule.interval >= 1 || forall n: nat :: n < 7 ==> !IsWantedDay(n, start, q)
  {
    if q.rule.interval >= 1 {
      WeeklyIsExact(start, q);
    } else {
      hide IsWantedDay, Slot, Taken, Distinct;
      ZeroWeeks(start, q);
    }
  }

  lemma ZeroWeeks(start: int, q: Query)
    requires q.rule.freq == WeeklyFreq && q.rule.interval == 0
    ensures Distinct(ExpandedStarts(start, q)) <==> forall n: nat :: n < 7 ==> !IsWantedDay(n, start, q)
  {
    hide IsWantedDay, Slot, Taken, LocalDay, DayOfWeek;
    var s := WeeklyOf(start, q);
    if n: nat :| n < 7 && IsWantedDay(n, start, q) {
      var d := (s.dow - 1 + n) % 7 + 1;
      FirstWeekDay(s.dow, n);
      FirstWeek(start, q, d - 1);
      FirstWeek(start, q, d + 6);
      SlotsRepeat(s, q, d - 1, d + 6, 3_640);
    } else {
      forall j: nat | j < 3_640
        ensures !Taken(s, j, q)
      {
        FirstWeek(start, q, j);
      }
      NothingAfter(s, q, 0, 3_640);
    }
  }

  // With INTERVAL=0 slot j is one of the first seven days.
  lemma FirstWeek(start: int, q: Query, j: nat)
    requires q.rule.freq == WeeklyFreq && q.rule.interval == 0
    ensures var s := WeeklyOf(start, q);
            var n := (j % 7 + 1 - s.dow + 7) % 7;
            Slot(s, j) == start + 86_400 * n && (Taken(s, j, q) <==> IsWantedDay(n, start, q))
  {
    hide LocalDay, DayOfWeek, Wanted;
    var dow := DayOfWeek(LocalDay(start, q.zone));
    var n := (j % 7 + 1 - dow + 7) % 7;
    assert j / 7 * 0 == 0;
    WeekdayArithmetic(j % 7 + 1, dow, 0);
    DayOfWeekAdvances(start, q.zone, n);
  }

  lemma FirstWeekDay(dow: Weekday, n: nat)
    requires n < 7
    ensures var d := (dow - 1 + n) % 7 + 1;
            ((d - 1) % 7 + 1 - dow + 7) % 7 == n && ((d + 6) % 7 + 1 - dow + 7) % 7 == n
  {
  }

  /** For INTERVAL=1 that is a plain scan of 3640 days for the asked weekdays. */
  lemma WeeklyIsDayScan(start: int, q: Query, t: int)
    requires q.rule.freq == WeeklyFreq && q.rule.interval == 1
    ensures t in ExpandedStarts(start, q) <==>
              Wanted(t, q) && IsAskedWeekday(DayOfWeek(LocalDay(t, q.zone)), start, q)
              && exists n: nat :: n < 3_640 && IsDay(t, start, n)
  {
    hide Wanted, LocalDay, DayOfWeek, ExpandedStarts;
    WeeklyIsExact(start, q);
    if n: nat :| IsDay(t, start, n) {
      assert OnWeeklyDay(n, start, q) <==>
        n < 3_640 && IsAskedWeekday(DayOfWeek(LocalDay(t, q.zone)), start, q);
    }
  }

  // Section 3.3.10 of RFC 5545 counts weeks from Monday (the default WKST): day n
  // is in the week that many Mondays after the one on or before DTSTART.
  predicate InRfcWeek(n: nat, dow: Weekday, interval: nat)
    requires interval >= 1
  {
    (n + dow - 1) / 7 % interval == 0
  }

  predicate InCodeWeek(n: nat, interval: nat)
    requires interval >= 1
  {
    n / 7 % interval == 0
  }

  ghost predicate SameWeeks(start: int, q: Query)
    requires q.rule.interval >= 1
  {
    forall n: nat :: IsAskedWeekday(DayOfWeek(LocalDay(start + 86_400 * n, q.zone)), start, q) ==>
      (InCodeWeek(n, q.rule.interval) <==> InRfcWeek(n, DayOfWeek(LocalDay(start, q.zone)), q.rule.interval))
  }

  lemma BlockOrNextWeek(n: nat, dow: Weekday)
    ensures var day := (dow - 1 + n) % 7 + 1;
            (n + dow - 1) / 7 == n / 7 + if day >= dow then 0 else 1
  {
  }

  /** The weekly series is the standard's exactly when INTERVAL is 1 or no asked
      weekday comes before DTSTART's weekday in the Monday-based week. */
  lemma WeeklyMeetsRfcIff(start: int, q: Query)
    requires q.rule.freq == WeeklyFreq && q.rule.interval >= 1
    ensures SameWeeks(start, q) <==>
      || q.rule.interval == 1
      || forall d: Weekday :: IsAskedWeekday(d, start, q) ==> d >= DayOfWeek(LocalDay(start, q.zone))
  {
    hide LocalDay, DayOfWeek;
    var dow := DayOfWeek(LocalDay(start, q.zone));
    var k := q.rule.interval;
    if k == 1 || forall d: Weekday :: IsAskedWeekday(d, start, q) ==> d >= dow {
      forall n: nat | IsAskedWeekday(DayOfWeek(LocalDay(start + 86_400 * n, q.zone)), start, q)
        ensures InCodeWeek(n, k) <==> InRfcWeek(n, dow, k)
      {
        DayOfWeekAdvances(start, q.zone, n);
        BlockOrNextWeek(n, dow);
      }
    } else {
      var d: Weekday :| IsAskedWeekday(d, start, q) && d < dow;
      var n := d - dow + 7;
      DayOfWeekAdvances(start, q.zone, n);
      BlockOrNextWeek(n, dow);
      assert n / 7 == 0 && InCodeWeek(n, k);
      assert (n + dow - 1) / 7 == 1 && !InRfcWeek(n, dow, k);
    }
  }

  // ---- Monthly ----------------------------------------------------------

  // The absolute month, counted as in MonthStart, of the i-th monthly slot.
  function SlotMonth(start: int, q: Query, i: nat): int {
    var tm := Localtime(start, q.zone);
    12 * tm.year + tm.mon + i * q.rule.interval
  }

  function MonthLength(k: int): int {
    DaysInMonth(k / 12, k % 12 + 1)
  }

  // Midnight at the start of day d of absolute month k.
  function DayOfMonth(k: int, d: int): Tm {
    Tm(k / 12, k % 12, d, 0, 0, 0)
  }

  // Slot i as an instant.
  lemma MonthlySlotInstant(start: int, q: Query, i: nat)
    ensures Slot(MonthlyOf(start, q), i)
         == 86_400 * (MonthStart(SlotMonth(start, q, i)) + Localtime(start, q.zone).mday - 1) - q.zone
  {
    hide MonthStart, Mkgmtime, Localtime;
    var s := MonthlyOf(start, q);
    var tm := s.first.(mon := s.first.mon + i * q.rule.interval);
    assert Slot(s, i) == Mktime(tm, q.zone);
    MidnightInstant(tm, SlotMonth(start, q, i));
  }

  lemma LocaltimeOfDay(k: int, d: int, t: int, zone: int)
    requires 1 <= d <= MonthLength(k)
    requires t == 86_400 * (MonthStart(k) + d - 1) - zone
    ensures Localtime(t, zone) == DayOfMonth(k, d)
  {
    hide MonthStart, Gmtime, Mkgmtime, DaysInMonth;
    var tm := DayOfMonth(k, d);
    assert IsNormal(tm);
    MidnightInstant(tm, k);
    assert Mkgmtime(tm) == t + zone;
    GmtimeInvertsMkgmtime(tm);
  }

  /** Slot i is local midnight of DTSTART's day of month in month i * INTERVAL
      after DTSTART's; where that month is too short, the surplus days run on
      into the next one. */
  lemma MonthlySlotDate(start: int, q: Query, i: nat)
    ensures var k := SlotMonth(start, q, i);
            var d := Localtime(start, q.zone).mday;
            Localtime(Slot(MonthlyOf(start, q), i), q.zone)
            == if d <= MonthLength(k) then DayOfMonth(k, d) else DayOfMonth(k + 1, d - MonthLength(k))
  {
    hide Slot, MonthStart, Gmtime, SlotMonth;
    var k := SlotMonth(start, q, i);
    var d := Localtime(start, q.zone).mday;
    var t := Slot(MonthlyOf(start, q), i);
    MonthlySlotInstant(start, q, i);
    if d <= MonthLength(k) {
      LocaltimeOfDay(k, d, t, q.zone);
    } else {
      MonthStartStep(k);
      LocaltimeOfDay(k + 1, d - MonthLength(k), t, q.zone);
    }
  }

  /** The monthly expander emits, in increasing order and once each, exactly the
      slots of 24 steps that reach neither past the deadline nor UNTIL and are
      not excluded. */
  lemma MonthlyIsExact(start: int, q: Query)
    requires q.rule.freq == MonthlyFreq && q.rule.interval >= 1
    ensures StrictlySorted(ExpandedStarts(start, q))
    ensures forall t :: t in ExpandedStarts(start, q) <==>
      && (exists i: nat :: i < 24 && Slot(MonthlyOf(start, q), i) == t)
      && t != TIME_FAILED && t <= q.window.deadline && NotAfterUntil(t, q.rule) && !IsExcluded(t, q.exdates, q.zone)
  {
    hide Slot, IsExcluded, NotAfterUntil;
    var s := MonthlyOf(start, q);
    forall i: nat, j: nat | i < j < 24
      ensures Slot(s, i) < Slot(s, j)
    {
      MonthlyGrows(s, i, j);
    }
    GrowingStarts(s, q, 24);
    forall t
      ensures t in ExpandedStarts(start, q) <==>
        && (exists i: nat :: i < 24 && Slot(s, i) == t)
        && t != TIME_FAILED && t <= q.window.deadline && NotAfterUntil(t, q.rule) && !IsExcluded(t, q.exdates, q.zone)
    {
      StartsMember(s, q, 24, t);
      if i: nat :| i < 24 && Slot(s, i) == t {
        assert Taken(s, i, q) ==> EmitsAt(s, q, 24, t);
      }
    }
  }

  // The occurrence section 3.3.10 of RFC 5545 gives month k: the same day and the
  // same time of day as DTSTART.
  function RfcMonthly(k: int, dtstart: Tm): Tm {
    dtstart.(year := k / 12, mon := k % 12)
  }

  /** A monthly slot is the standard's occurrence (a real date, at DTSTART's time
      of day) exactly when the month has that day and DTSTART is at midnight. */
  lemma MonthlyMeetsRfcIff(start: int, q: Query, i: nat)
    ensures var k := SlotMonth(start, q, i);
            var tm := Localtime(start, q.zone);
            Localtime(Slot(MonthlyOf(start, q), i), q.zone) == RfcMonthly(k, tm)
            <==> tm.mday <= MonthLength(k) && tm.hour == 0 && tm.min == 0 && tm.sec == 0
  {
    hide Slot, Gmtime, SlotMonth;
    MonthlySlotDate(start, q, i);
  }

  /** INTERVAL=0 repeats one midnight 24 times: the monthly expander is free of
      duplicates exactly when the interval is positive or that midnight is not
      emitted. */
  lemma MonthlyIsDistinctIff(start: int, q: Query)
    requires q.rule.freq == MonthlyFreq
    ensures Distinct(ExpandedStarts(start, q)) <==> q.rule.interval >= 1 || !Taken(MonthlyOf(start, q), 0, q)
  {
    hide Mktime, Localtime, IsExcluded, NotAfterUntil;
    var s := MonthlyOf(start, q);
    if q.rule.interval >= 1 {
      MonthlyIsExact(start, q);
    } else {
      forall j: nat
        ensures Slot(s, j) == Slot(s, 0) && (Taken(s, j, q) <==> Taken(s, 0, q))
      {
        assert j * 0 == 0;
      }
      if Taken(s, 0, q) {
        SlotsRepeat(s, q, 0, 1, 24);
      } else {
        NothingAfter(s, q, 0, 24);
      }
    }
  }

  // ---- Monthly series and the window -------------------------------------

  // Local midnight of the day of t.
  function Midnight(t: int, zone: int): int {
    86_400 * LocalDay(t, zone) - zone
  }

  lemma FirstSlotIsMidnight(start: int, q: Query)
    ensures Slot(MonthlyOf(start, q), 0) == Midnight(start, q.zone)
  {
    hide Mkgmtime, Gmtime;
    var first := Localtime(start, q.zone).(hour := 0, min := 0, sec := 0);
    assert first.(mon := first.mon + 0 * q.rule.interval) == first;
    MidnightOf(start + q.zone);
  }

  lemma SlotIsMidnight(start: int, q: Query, i: nat)
    ensures (Slot(MonthlyOf(start, q), i) + q.zone) % 86_400 == 0
  {
    hide Slot, MonthStart, Localtime, SlotMonth;
    MonthlySlotInstant(start, q, i);
  }

  // An instant that a monthly series would emit, but for the window's start.
  predicate IsEmittable(t: int, q: Query) {
    t != TIME_FAILED && t <= q.window.deadline && NotAfterUntil(t, q.rule) && !IsExcluded(t, q.exdates, q.zone)
  }

  /** The start of the window plays no part, so a monthly series starts before it
      exactly when one of its slots before it is not past the deadline or UNTIL, not
      excluded and not mktime's error value.  When local midnight of DTSTART's day
      is neither excluded nor that value, it alone decides. */
  lemma MonthlyStaysInWindowIff(start: int, q: Query)
    requires q.rule.freq == MonthlyFreq && q.rule.interval >= 1
    ensures (forall t :: t in ExpandedStarts(start, q) ==> t >= q.window.start)
        <==> forall i: nat :: i < 24 && Slot(MonthlyOf(start, q), i) < q.window.start ==>
               !IsEmittable(Slot(MonthlyOf(start, q), i), q)
    ensures var first := Midnight(start, q.zone);
            first != TIME_FAILED && !IsExcluded(first, q.exdates, q.zone) ==>
              ((forall t :: t in ExpandedStarts(start, q) ==> t >= q.window.start)
               <==> first >= q.window.start || first > q.window.deadline || !NotAfterUntil(first, q.rule))
  {
    hide Slot, IsExcluded, LocalDay;
    var s := MonthlyOf(start, q);
    MonthlyIsExact(start, q);
    FirstSlotIsMidnight(start, q);
    forall i: nat | i < 24
      ensures Slot(s, i) >= Slot(s, 0)
      ensures Slot(s, i) in ExpandedStarts(start, q) <==> IsEmittable(Slot(s, i), q)
    {
      MonthlyGrows(s, 0, i);
    }
    assert Slot(s, 0) in ExpandedStarts(start, q) <==> IsEmittable(Slot(s, 0), q);
  }

  /** A monthly event whose time of day is still to come starts its series at the
      midnight before the window. */
  lemma MonthlyPrecedesWindow(start: int, q: Query)
    requires q.rule == Rule(MonthlyFreq, 1, 0, {}) && q.exdates == {}
    requires Midnight(start, q.zone) < q.window.start <= start <= q.window.deadline
    requires Midnight(start, q.zone) != TIME_FAILED
    ensures Midnight(start, q.zone) in ExpandedStarts(start, q)
  {
    hide Slot, Midnight, FormatLocalDt;
    FirstSlotIsMidnight(start, q);
    MonthlyIsExact(start, q);
  }

  // Ten o'clock on 2 January 1970, seen at nine.
  const TEN := Query(Rule(MonthlyFreq, 1, 0, {}), Window(118_800, 8_640_000), {}, 0)

  lemma TenIsEmittedAtMidnight()
    ensures 86_400 in ExpandedStarts(122_400, TEN) && 86_400 < TEN.window.start <= 122_400
  {
    hide ExpandedStarts;
    assert Midnight(122_400, 0) == 86_400;
    MonthlyPrecedesWindow(122_400, TEN);
  }
}
