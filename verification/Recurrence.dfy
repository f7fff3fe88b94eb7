/** Expansion of recurrence rules inside a window. */
module Recurrence {
  import opened Civil
  import opened DateTime
  import opened Events

  // What one call of an expander is asked: the rule, where to look, what to skip.
  datatype Query = Query(rule: Rule, window: Window, exdates: set<string>, zone: int)

  predicate NotAfterUntil(t: int, rule: Rule) {
    rule.until == 0 || t <= rule.until
  }

  /** The occurrence t is wanted: in the window, not after UNTIL, not an EXDATE. */
  predicate Wanted(t: int, q: Query) {
    q.window.start <= t <= q.window.deadline && NotAfterUntil(t, q.rule) && !IsExcluded(t, q.exdates, q.zone)
  }

  /** A series is the row of candidate slots an expander walks through. */
  datatype Series =
    | DailySeries(start: int, interval: nat)
    | WeeklySeries(start: int, interval: nat, days: set<Weekday>, dow: Weekday)
    | MonthlySeries(first: Tm, interval: nat, zone: int)

  // Days from DTSTART to the j-th slot of a weekly series; seven slots a week,
  // Monday first.
  function WeeklyOffset(interval: nat, dow: Weekday, j: nat): (n: nat) {
    (j % 7 + 1 - dow + 7) % 7 + 7 * (j / 7 * interval)
  }

  function Slot(s: Series, j: nat): int {
    match s
    case DailySeries(start, interval) => start + 86_400 * (j * interval)
    case WeeklySeries(start, interval, _, dow) => start + 86_400 * WeeklyOffset(interval, dow, j)
    case MonthlySeries(first, interval, zone) => Mktime(first.(mon := first.mon + j * interval), zone)
  }

  // Is slot j emitted?  Monthly series ignore the start of the window.
  predicate Taken(s: Series, j: nat, q: Query) {
    var t := Slot(s, j);
    match s
    case DailySeries(_, _) => Wanted(t, q)
    case WeeklySeries(_, _, days, _) => j % 7 + 1 in days && Wanted(t, q)
    case MonthlySeries(_, _, _) =>
      t != TIME_FAILED && t <= q.window.deadline && NotAfterUntil(t, q.rule) && !IsExcluded(t, q.exdates, q.zone)
  }

  // The starts emitted among the first n slots.
  function Starts(s: Series, q: Query, n: nat): seq<int> {
    if n == 0 then []
    else Starts(s, q, n - 1) + if Taken(s, n - 1, q) then [Slot(s, n - 1)] else []
  }

  const DAILY_LIMIT := 365
  const WEEK_LIMIT := 520
  const MONTHLY_LIMIT := 24

  function DailyOf(start: int, q: Query): Series {
    DailySeries(start, q.rule.interval)
  }

  // BYDAY, or the weekday of DTSTART when there is none.
  function DaysOf(start: int, q: Query): set<Weekday> {
    if q.rule.byday == {} then {DayOfWeek(LocalDay(start, q.zone))} else q.rule.byday
  }

  function WeeklyOf(start: int, q: Query): Series {
    WeeklySeries(start, q.rule.interval, DaysOf(start, q), DayOfWeek(LocalDay(start, q.zone)))
  }

  function MonthlyOf(start: int, q: Query): Series {
    MonthlySeries(Localtime(start, q.zone).(hour := 0, min := 0, sec := 0), q.rule.interval, q.zone)
  }

  function ExpandedStarts(start: int, q: Query): seq<int> {
    match q.rule.freq
    case DailyFreq => Starts(DailyOf(start, q), q, DAILY_LIMIT)
    case WeeklyFreq => Starts(WeeklyOf(start, q), q, 7 * WEEK_LIMIT)
    case MonthlyFreq => Starts(MonthlyOf(start, q), q, MONTHLY_LIMIT)
    case YearlyFreq => []
  }

  // The series event moved to start at t, with its own duration.
  function InstanceAt(base: Event, t: int): Event {
    base.(start := t, end := t + (base.end - base.start))
  }

  // Occurrences at these starts, each as long as the series event.
  function Instances(base: Event, starts: seq<int>): (r: seq<Event>)
    ensures |r| == |starts|
    ensures forall i :: 0 <= i < |r| ==>
      r[i].start == starts[i] && r[i].end - r[i].start == base.end - base.start
  {
    seq(|starts|, i requires 0 <= i < |starts| => InstanceAt(base, starts[i]))
  }

  lemma InstancesGrow(base: Event, starts: seq<int>, t: int)
    ensures Instances(base, starts + [t]) == Instances(base, starts) + [InstanceAt(base, t)]
  {
  }

  lemma Product(a: int, b: int, k: int)
    requires 0 <= a <= b && 0 <= k
    ensures 0 <= a * k <= b * k
    ensures a < b && 0 < k ==> a * k + k <= b * k
  {
    assert b * k == a * k + (b - a) * k;
    if a < b && 0 < k {
      assert (b - a) * k == k + (b - a - 1) * k;
    }
  }

  lemma {:induction false} NothingAfter(s: Series, q: Query, i: nat, n: nat)
    requires i <= n && forall j: nat :: i <= j < n ==> !Taken(s, j, q)
    ensures Starts(s, q, n) == Starts(s, q, i)
    decreases n
  {
    hide Taken, Slot;
    if i < n {
      NothingAfter(s, q, i, n - 1);
    }
  }

  // ---- The three loops ---------------------------------------------------

  lemma DailyGrows(start: int, interval: nat, i: nat, j: nat)
    requires i <= j
    ensures Slot(DailySeries(start, interval), i) <= Slot(DailySeries(start, interval), j)
    ensures i < j && interval > 0 ==> Slot(DailySeries(start, interval), i) < Slot(DailySeries(start, interval), j)
  {
  }

  /** The daily expander: its early exits lose nothing. */
  method ExpandDaily(base: Event, q: Query, before: seq<Event>) returns (output: seq<Event>)
    ensures output == before + Instances(base, Starts(DailyOf(base.start, q), q, DAILY_LIMIT))
  {
    hide IsExcluded;
    output := before;
    var duration := base.end - base.start;
    ghost var s := DailyOf(base.start, q);
    for i := 0 to DAILY_LIMIT
      invariant output == before + Instances(base, Starts(s, q, i))
    {
      var start := base.start + 86_400 * (i * q.rule.interval);
      assert start == Slot(s, i);
      if start > q.window.deadline || !NotAfterUntil(start, q.rule) {
        forall j: nat | i <= j < DAILY_LIMIT
          ensures !Taken(s, j, q)
        {
          DailyGrows(base.start, q.rule.interval, i, j);
        }
        NothingAfter(s, q, i, DAILY_LIMIT);
      }
      if start < q.window.start {
        continue;
      }
      if start > q.window.deadline {
        break;
      }
      if q.rule.until != 0 && start > q.rule.until {
        break;
      }
      if IsExcluded(start, q.exdates, q.zone) {
        continue;
      }
      InstancesGrow(base, Starts(s, q, i), start);
      output := output + [base.(start := start, end := start + duration)];
    }
  }

  // Every slot of week w or later is at or after the anchor of week w.
  lemma WeeklyFloor(s: Series, w: nat, j: nat)
    requires s.WeeklySeries? && 7 * w <= j
    ensures Slot(s, j) >= s.start + 86_400 * (w * 7 * s.interval)
  {
    Product(w, j / 7, s.interval);
    assert w * 7 * s.interval == 7 * (w * s.interval);
  }

  lemma WeeklySlotOf(s: Series, week: nat, day: Weekday)
    requires s.WeeklySeries?
    ensures var j := 7 * week + day - 1;
            j % 7 + 1 == day
            && Slot(s, j) == s.start + 86_400 * ((day - s.dow + 7) % 7 + week * 7 * s.interval)
  {
  }

  /** The weekly expander.  Its order within a week is Monday to Sunday, whatever
      the weekday of DTSTART. */
  method ExpandWeekly(base: Event, q: Query, before: seq<Event>) returns (output: seq<Event>)
    ensures output == before + Instances(base, Starts(WeeklyOf(base.start, q), q, 7 * WEEK_LIMIT))
  {
    hide IsExcluded, LocalDay, DayOfWeek, Slot;
    output := before;
    var duration := base.end - base.start;
    var dow := DayOfWeek(LocalDay(base.start, q.zone));
    var days := q.rule.byday;
    if days == {} {
      days := {dow};
    }
    ghost var s := WeeklyOf(base.start, q);
    for week := 0 to WEEK_LIMIT
      invariant output == before + Instances(base, Starts(s, q, 7 * week))
    {
      var anchor := base.start + 86_400 * (week * 7 * q.rule.interval);
      if anchor > q.window.deadline {
        forall j: nat | 7 * week <= j < 7 * WEEK_LIMIT
          ensures !Taken(s, j, q)
        {
          WeeklyFloor(s, week, j);
        }
        NothingAfter(s, q, 7 * week, 7 * WEEK_LIMIT);
        break;
      }
      for day := 1 to 8
        invariant output == before + Instances(base, Starts(s, q, 7 * week + day - 1))
      {
        var daysAhead := (day - dow + 7) % 7;
        var start := base.start + 86_400 * (daysAhead + week * 7 * q.rule.interval);
        ghost var j := 7 * week + day - 1;
        WeeklySlotOf(s, week, day);
        if day !in days {
          continue;
        }
        if start < q.window.start {
          continue;
        }
        if start > q.window.deadline {
          continue;
        }
        if q.rule.until != 0 && start > q.rule.until {
          continue;
        }
        if IsExcluded(start, q.exdates, q.zone) {
          continue;
        }
        InstancesGrow(base, Starts(s, q, j), start);
        output := output + [base.(start := start, end := start + duration)];
      }
    }
  }

  lemma MonthlyGrows(s: Series, i: nat, j: nat)
    requires s.MonthlySeries? && i <= j
    ensures Slot(s, i) <= Slot(s, j)
    ensures i < j && s.interval > 0 ==> Slot(s, i) < Slot(s, j)
  {
    hide MonthStart;
    Product(i, j, s.interval);
    var k := 12 * s.first.year + s.first.mon;
    MonthStartGrows(k + i * s.interval, k + j * s.interval);
  }

  /** The monthly expander: midnight of the same day of the month, rolled over
      into the next month where there is no such day. */
  method ExpandMonthly(base: Event, q: Query, before: seq<Event>) returns (output: seq<Event>)
    ensures output == before + Instances(base, Starts(MonthlyOf(base.start, q), q, MONTHLY_LIMIT))
  {
    hide IsExcluded, Mktime, Localtime;
    output := before;
    var duration := base.end - base.start;
    ghost var s := MonthlyOf(base.start, q);
    for i := 0 to MONTHLY_LIMIT
      invariant output == before + Instances(base, Starts(s, q, i))
    {
      var tm := Localtime(base.start, q.zone);
      tm := tm.(mon := tm.mon + i * q.rule.interval);
      tm := tm.(hour := 0, min := 0, sec := 0);
      var start := Mktime(tm, q.zone);
      assert start == Slot(s, i);
      if start == TIME_FAILED {
        continue;
      }
      if start > q.window.deadline || !NotAfterUntil(start, q.rule) {
        forall j: nat | i <= j < MONTHLY_LIMIT
          ensures !Taken(s, j, q)
        {
          MonthlyGrows(s, i, j);
        }
        NothingAfter(s, q, i, MONTHLY_LIMIT);
      }
      if start > q.window.deadline {
        break;
      }
      if q.rule.until != 0 && start > q.rule.until {
        break;
      }
      if IsExcluded(start, q.exdates, q.zone) {
        continue;
      }
      InstancesGrow(base, Starts(s, q, i), start);
      output := output + [base.(start := start, end := start + duration)];
    }
  }

  /** The expander chosen by frequency; YEARLY emits nothing. */
  method Expand(base: Event, q: Query, before: seq<Event>) returns (output: seq<Event>)
    ensures output == before + Instances(base, ExpandedStarts(base.start, q))
  {
    match q.rule.freq {
      case DailyFreq => output := ExpandDaily(base, q, before);
      case WeeklyFreq => output := ExpandWeekly(base, q, before);
      case MonthlyFreq => output := ExpandMonthly(base, q, before);
      case YearlyFreq => output := before;
    }
  }
}
