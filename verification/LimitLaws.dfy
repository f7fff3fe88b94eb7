/** Where a series ends: the bounds the program ignores, UNTIL as a date and COUNT, and
    the bounds it sets itself. */
module LimitLaws {
  import opened Civil
  import opened DateTime
  import opened Events
  import opened Recurrence
  import opened RecurrenceLaws

  // The row of slots a rule walks through, and how many of them.
  function SeriesFor(start: int, q: Query): Series {
    match q.rule.freq
    case WeeklyFreq => WeeklyOf(start, q)
    case MonthlyFreq => MonthlyOf(start, q)
    case _ => DailyOf(start, q)
  }

  function LimitOf(freq: Freq): nat {
    match freq
    case DailyFreq => 365
    case WeeklyFreq => 3_640
    case MonthlyFreq => 24
    case YearlyFreq => 0
  }

  lemma ExpandedAre(start: int, q: Query)
    ensures ExpandedStarts(start, q) == Starts(SeriesFor(start, q), q, LimitOf(q.rule.freq))
  {
    hide DailyOf, WeeklyOf, MonthlyOf;
  }

  // ---- UNTIL -------------------------------------------------------------

  // q with a bound.
  function Bounded(q: Query, until: int): Query {
    q.(rule := q.rule.(until := until))
  }

  lemma TakenUntil(s: Series, q: Query, until: int, j: nat)
    requires q.rule.until == 0 && until != 0
    ensures Taken(s, j, Bounded(q, until)) <==> Taken(s, j, q) && Slot(s, j) <= until
  {
    hide Slot, IsExcluded;
  }

  lemma {:induction false} StartsUntil(s: Series, q: Query, until: int, n: nat)
    requires q.rule.until == 0 && until != 0
    ensures forall t :: t in Starts(s, Bounded(q, until), n) ==> t <= until
    ensures (forall t :: t in Starts(s, q, n) ==> t <= until) ==>
      Starts(s, Bounded(q, until), n) == Starts(s, q, n)
  {
    hide Slot, Taken, Bounded;
    if n > 0 {
      StartsUntil(s, q, until, n - 1);
      TakenUntil(s, q, until, n - 1);
      var t := Slot(s, n - 1);
      var most, all := Starts(s, q, n - 1), Starts(s, q, n);
      assert all == if Taken(s, n - 1, q) then most + [t] else most;
      if forall u :: u in all ==> u <= until {
        forall u | u in most
          ensures u <= until
        {
          assert u in all;
        }
        assert Taken(s, n - 1, q) ==> t in all;
      }
    }
  }

  // The bounded series is the unbounded one when that has nothing later.
  lemma BoundedIsSame(start: int, q: Query, until: int)
    requires q.rule.until == 0 && until != 0
    ensures ExpandedStarts(start, q) == ExpandedStarts(start, Bounded(q, until))
        <==> forall t :: t in ExpandedStarts(start, q) ==> t <= until
  {
    hide Starts;
    match q.rule.freq {
      case DailyFreq => StartsUntil(DailyOf(start, q), q, until, 365);
      case WeeklyFreq => StartsUntil(WeeklyOf(start, q), q, until, 3_640);
      case MonthlyFreq => StartsUntil(MonthlyOf(start, q), q, until, 24);
      case YearlyFreq =>
    }
  }

  /** A series whose bound is ignored is the bounded one exactly when none of its
      slots after the bound is taken: each is outside the window or excluded, or on a
      weekday that is not asked for. */
  lemma UntilHoldsIff(start: int, q: Query, until: int)
    requires q.rule.until == 0 && until != 0
    ensures ExpandedStarts(start, q) == ExpandedStarts(start, Bounded(q, until))
        <==> forall j: nat :: j < LimitOf(q.rule.freq) && Slot(SeriesFor(start, q), j) > until ==>
               !Taken(SeriesFor(start, q), j, q)
  {
    hide Starts, Slot, Taken, SeriesFor, Bounded, ExpandedStarts;
    BoundedIsSame(start, q, until);
    ExpandedAre(start, q);
    var s, n := SeriesFor(start, q), LimitOf(q.rule.freq);
    forall t
      ensures t in ExpandedStarts(start, q) <==> EmitsAt(s, q, n, t)
    {
      StartsMember(s, q, n, t);
    }
    if forall t :: t in ExpandedStarts(start, q) ==> t <= until {
      forall j: nat | j < n && Slot(s, j) > until
        ensures !Taken(s, j, q)
      {
        assert Taken(s, j, q) ==> EmitsAt(s, q, n, Slot(s, j));
      }
    }
  }

  /** The same from DTSTART, INTERVAL, BYDAY, window and EXDATE: no step, day or month
      of the series lies after the bound and would be emitted. */
  ghost predicate NothingLater(start: int, q: Query, until: int)
    requires q.rule.interval >= 1
  {
    match q.rule.freq
    case DailyFreq => forall t :: OnDailyStep(t, start, q.rule.interval) && t > until ==> !Wanted(t, q)
    case WeeklyFreq =>
      forall n: nat :: OnWeeklyDay(n, start, q) && start + 86_400 * n > until ==> !Wanted(start + 86_400 * n, q)
    case MonthlyFreq =>
      forall i: nat :: i < 24 && Slot(MonthlyOf(start, q), i) > until ==>
        !IsEmittable(Slot(MonthlyOf(start, q), i), q)
    case YearlyFreq => true
  }

  lemma UntilHoldsOnDaysIff(start: int, q: Query, until: int)
    requires q.rule.until == 0 && until != 0 && q.rule.interval >= 1
    ensures ExpandedStarts(start, q) == ExpandedStarts(start, Bounded(q, until)) <==> NothingLater(start, q, until)
  {
    hide Starts, Slot, Bounded, Wanted, IsExcluded, OnWeeklyDay, OnDailyStep, LocalDay, DayOfWeek;
    BoundedIsSame(start, q, until);
    match q.rule.freq {
      case DailyFreq => DailyIsExact(start, q);
      case WeeklyFreq => WeeklyNothingLater(start, q, until);
      case MonthlyFreq => MonthlyNothingLater(start, q, until);
      case YearlyFreq =>
    }
  }

  lemma WeeklyNothingLater(start: int, q: Query, until: int)
    requires q.rule.freq == WeeklyFreq && q.rule.interval >= 1
    ensures (forall t :: t in ExpandedStarts(start, q) ==> t <= until)
        <==> forall n: nat :: OnWeeklyDay(n, start, q) && start + 86_400 * n > until ==> !Wanted(start + 86_400 * n, q)
  {
    hide ExpandedStarts, Wanted, OnWeeklyDay;
    WeeklyIsExact(start, q);
    if forall t :: t in ExpandedStarts(start, q) ==> t <= until {
      forall n: nat | OnWeeklyDay(n, start, q) && start + 86_400 * n > until
        ensures !Wanted(start + 86_400 * n, q)
      {
        assert IsDay(start + 86_400 * n, start, n);
      }
    }
  }

  lemma MonthlyNothingLater(start: int, q: Query, until: int)
    requires q.rule.freq == MonthlyFreq && q.rule.interval >= 1
    ensures (forall t :: t in ExpandedStarts(start, q) ==> t <= until)
        <==> forall i: nat :: i < 24 && Slot(MonthlyOf(start, q), i) > until ==>
               !IsEmittable(Slot(MonthlyOf(start, q), i), q)
  {
    hide ExpandedStarts, Slot, IsExcluded, MonthlyOf;
    MonthlyIsExact(start, q);
  }

  // ---- COUNT -------------------------------------------------------------

  lemma {:induction false} StartsCount(s: Series, q: Query, m: nat, n: nat)
    requires m <= n
    ensures |Starts(s, q, n)| >= |Starts(s, q, m)|
    ensures (exists j: nat :: m <= j < n && Taken(s, j, q)) ==> |Starts(s, q, n)| > |Starts(s, q, m)|
  {
    hide Taken, Slot;
    if m < n {
      StartsCount(s, q, m, n - 1);
    }
  }

  // Two beginnings of a series emit the same exactly when nothing between is taken.
  lemma SameStartsIff(s: Series, q: Query, m: nat, n: nat)
    requires m <= n
    ensures Starts(s, q, m) == Starts(s, q, n) <==> forall j: nat :: m <= j < n ==> !Taken(s, j, q)
  {
    hide Taken, Starts;
    StartsCount(s, q, m, n);
    if forall j: nat :: m <= j < n ==> !Taken(s, j, q) {
      NothingAfter(s, q, m, n);
    }
  }

  /** A daily or monthly series whose COUNT=n is ignored is that of its first n steps
      exactly when no step between the n-th and the program's own last one is taken,
      whichever comes first. */
  lemma CountHoldsIff(start: int, q: Query, n: nat)
    requires q.rule.freq == DailyFreq || q.rule.freq == MonthlyFreq
    ensures ExpandedStarts(start, q) == Starts(SeriesFor(start, q), q, n)
        <==> forall j: nat :: n <= j < LimitOf(q.rule.freq) || LimitOf(q.rule.freq) <= j < n ==>
               !Taken(SeriesFor(start, q), j, q)
  {
    hide Starts, Taken, SeriesFor, ExpandedStarts;
    var s, limit := SeriesFor(start, q), LimitOf(q.rule.freq);
    ExpandedAre(start, q);
    if n <= limit {
      SameStartsIff(s, q, n, limit);
    } else {
      SameStartsIff(s, q, limit, n);
    }
  }

  /** How many asked days of a weekly series come before day n: COUNT=k asks for the
      days of rank below k. */
  function Rank(n: nat, start: int, q: Query): nat
    requires q.rule.interval >= 1
  {
    if n == 0 then 0 else Rank(n - 1, start, q) + if IsAskedDay(n - 1, start, q) then 1 else 0
  }

  lemma {:induction false} RankGrows(m: nat, n: nat, start: int, q: Query)
    requires q.rule.interval >= 1 && m < n && IsAskedDay(m, start, q)
    ensures Rank(m, start, q) < Rank(n, start, q)
    decreases n
  {
    hide IsAskedDay;
    if m < n - 1 {
      RankGrows(m, n - 1, start, q);
    }
  }

  // t is one of the first k days of a weekly series, and wanted.
  ghost predicate IsCounted(t: int, start: int, q: Query, k: nat)
    requires q.rule.interval >= 1
  {
    Wanted(t, q) && exists n: nat :: IsDay(t, start, n) && IsAskedDay(n, start, q) && Rank(n, start, q) < k
  }

  /** A weekly series whose COUNT=k is ignored emits its first k days exactly when no
      wanted day is among the k but past the program's 520 blocks, or within those but
      not among the k. */
  lemma WeeklyCountHoldsIff(start: int, q: Query, k: nat)
    requires q.rule.freq == WeeklyFreq && q.rule.interval >= 1
    ensures (forall t :: t in ExpandedStarts(start, q) <==> IsCounted(t, start, q, k))
        <==> forall n: nat :: IsAskedDay(n, start, q) && (Rank(n, start, q) < k) != InBlocks(n, q.rule.interval) ==>
               !Wanted(start + 86_400 * n, q)
  {
    hide ExpandedStarts, Wanted, IsAskedDay, Rank, InBlocks;
    WeeklyIsExact(start, q);
    forall n: nat
      ensures IsDay(start + 86_400 * n, start, n)
      ensures start + 86_400 * n in ExpandedStarts(start, q)
          <==> Wanted(start + 86_400 * n, q) && IsAskedDay(n, start, q) && InBlocks(n, q.rule.interval)
      ensures IsCounted(start + 86_400 * n, start, q, k)
          <==> Wanted(start + 86_400 * n, q) && IsAskedDay(n, start, q) && Rank(n, start, q) < k
    {
      assert IsDay(start + 86_400 * n, start, n);
    }
    forall t | t in ExpandedStarts(start, q) || IsCounted(t, start, q, k)
      ensures exists n: nat :: IsDay(t, start, n) && IsAskedDay(n, start, q)
    {
    }
  }

  // ---- The program's own limits ------------------------------------------

  lemma TakenSlotsDiffer(start: int, q: Query, i: nat, j: nat)
    requires q.rule.interval >= 1 && i < j
    ensures Slot(SeriesFor(start, q), i) != Slot(SeriesFor(start, q), j)
  {
    hide Slot, LocalDay, DayOfWeek;
    match q.rule.freq {
      case WeeklyFreq =>
        WeeklySlotDay(start, q, i);
        WeeklySlotDay(start, q, j);
      case MonthlyFreq => MonthlyGrows(MonthlyOf(start, q), i, j);
      case _ => DailyGrows(start, q.rule.interval, i, j);
    }
  }

  // Some slot of the endless series is taken at t.
  ghost predicate InEndlessSeries(t: int, start: int, q: Query) {
    exists j: nat :: Taken(SeriesFor(start, q), j, q) && Slot(SeriesFor(start, q), j) == t
  }

  /** The 365 days, 520 weeks or 24 months of steps count from DTSTART: they lose
      nothing exactly when no later step of the series would be emitted. */
  lemma LimitLosesNothingIff(start: int, q: Query)
    requires q.rule.freq != YearlyFreq && q.rule.interval >= 1
    ensures (forall t :: t in ExpandedStarts(start, q) <==> InEndlessSeries(t, start, q))
        <==> forall j: nat :: LimitOf(q.rule.freq) <= j ==> !Taken(SeriesFor(start, q), j, q)
  {
    hide Starts, Slot, Taken, SeriesFor, ExpandedStarts;
    var s, limit := SeriesFor(start, q), LimitOf(q.rule.freq);
    ExpandedAre(start, q);
    forall t
      ensures t in ExpandedStarts(start, q) <==> EmitsAt(s, q, limit, t)
    {
      StartsMember(s, q, limit, t);
    }
    if forall t :: t in ExpandedStarts(start, q) <==> InEndlessSeries(t, start, q) {
      forall j: nat | limit <= j
        ensures !Taken(s, j, q)
      {
        if Taken(s, j, q) {
          assert InEndlessSeries(Slot(s, j), start, q);
          var i: nat :| i < limit && Taken(s, i, q) && Slot(s, i) == Slot(s, j);
          TakenSlotsDiffer(start, q, i, j);
        }
      }
    }
  }

  /** A daily series whose 365 steps all lie before the window shows nothing at all. */
  lemma OldSeriesIsEmpty(start: int, q: Query)
    requires q.rule.freq == DailyFreq && start + 86_400 * (364 * q.rule.interval) < q.window.start
    ensures ExpandedStarts(start, q) == []
  {
    hide IsExcluded;
    var s := DailyOf(start, q);
    forall j: nat | j < 365
      ensures !Taken(s, j, q)
    {
      DailyGrows(start, q.rule.interval, j, 364);
    }
    NothingAfter(s, q, 0, 365);
  }

  // A daily event of 1 January 1970, looked at 400 days later.
  const LATE := Query(DEFAULT_RULE, Window(86_400 * 400, 86_400 * 500), {}, 0)

  lemma OldDailyEventIsLost()
    ensures ExpandedStarts(0, LATE) == [] && InEndlessSeries(86_400 * 450, 0, LATE)
  {
    hide FormatLocalDt;
    OldSeriesIsEmpty(0, LATE);
    var s := SeriesFor(0, LATE);
    assert Slot(s, 450) == 86_400 * 450;
    assert Taken(s, 450, LATE);
  }

  lemma {:induction false} AllTaken(s: Series, q: Query, n: nat)
    requires forall j: nat :: j < n ==> Taken(s, j, q)
    ensures |Starts(s, q, n)| == n
  {
    hide Taken, Slot;
    if n > 0 {
      AllTaken(s, q, n - 1);
    }
  }
}
