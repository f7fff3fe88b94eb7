/** What a calendar shows: which events are selected, and what overrides do. */
module PipelineLaws {
  import opened Civil
  import opened DateTime
  import opened Events
  import opened Recurrence
  import opened RecurrenceLaws
  import opened EventBuilder
  import opened Selection
  import opened Pipeline

  // r is shown at t as an occurrence of its own series.
  ghost predicate IsOccurrence(r: RawEvent, t: int, w: Window, zone: int) {
    !r.hasRecurrenceId && r.ev.status != Canceled && r.hasRule
    && t in ExpandedStarts(r.ev.start, Query(r.rule, w, r.exdates, zone))
  }

  // r is shown as it stands: an override, or an event without a rule.
  predicate IsShownAsIs(r: RawEvent, w: Window) {
    (r.hasRecurrenceId || !r.hasRule) && r.ev.status != Canceled
    && r.ev.start != NO_TIME && w.start <= r.ev.start <= w.deadline
  }

  ghost predicate ComesFrom(e: Event, r: RawEvent, raws: seq<RawEvent>, w: Window, zone: int) {
    || (IsShownAsIs(r, w) && e == r.ev)
    || (IsOccurrence(r, e.start, w, zone) && e == InstanceAt(WithRepeat(r.ev, r.rule), e.start)
        && !IsNamed(raws, r.ev.uid, FormatLocalDt(e.start, zone)))
  }

  lemma {:induction false} NotNamedMember(instances: seq<Event>, raws: seq<RawEvent>, uid: string, zone: int, e: Event)
    ensures e in NotNamed(instances, raws, uid, zone)
        <==> e in instances && !IsNamed(raws, uid, FormatLocalDt(e.start, zone))
  {
    hide IsNamed, FormatLocalDt;
    if instances != [] {
      var last := instances[|instances| - 1];
      assert instances == instances[..|instances| - 1] + [last];
      NotNamedMember(instances[..|instances| - 1], raws, uid, zone, e);
    }
  }

  lemma InstancesMember(base: Event, starts: seq<int>, e: Event)
    ensures e in Instances(base, starts) <==> e.start in starts && e == InstanceAt(base, e.start)
  {
    var instances := Instances(base, starts);
    if e in instances {
      var i :| 0 <= i < |instances| && instances[i] == e;
      assert starts[i] == e.start;
    }
    if e.start in starts && e == InstanceAt(base, e.start) {
      var i :| 0 <= i < |starts| && starts[i] == e.start;
      assert instances[i] == e;
    }
  }

  lemma SeriesMember(r: RawEvent, raws: seq<RawEvent>, w: Window, zone: int, e: Event)
    ensures e in SeriesEvents(r, raws, w, zone)
        <==> e.start in ExpandedStarts(r.ev.start, Query(r.rule, w, r.exdates, zone))
             && e == InstanceAt(WithRepeat(r.ev, r.rule), e.start)
             && !IsNamed(raws, r.ev.uid, FormatLocalDt(e.start, zone))
  {
    hide IsNamed, FormatLocalDt, ExpandedStarts, WithRepeat, NotNamed, Instances, InstanceAt;
    var base := WithRepeat(r.ev, r.rule);
    var starts := ExpandedStarts(r.ev.start, Query(r.rule, w, r.exdates, zone));
    InstancesMember(base, starts, e);
    NotNamedMember(Instances(base, starts), raws, r.ev.uid, zone, e);
  }

  lemma ContributionMember(r: RawEvent, raws: seq<RawEvent>, w: Window, zone: int, e: Event)
    ensures e in Contribution(r, raws, w, zone) <==> ComesFrom(e, r, raws, w, zone)
  {
    hide IsNamed, FormatLocalDt, ExpandedStarts, WithRepeat, SeriesEvents, InstanceAt;
    SeriesMember(r, raws, w, zone, e);
    var series := SeriesEvents(r, raws, w, zone);
    assert e in series <==> e in multiset(series);
  }

  lemma {:induction false} ContributionsMember(part: seq<RawEvent>, raws: seq<RawEvent>, w: Window, zone: int, e: Event)
    ensures e in Contributions(part, raws, w, zone)
        <==> exists i :: 0 <= i < |part| && e in Contribution(part[i], raws, w, zone)
  {
    hide Contribution;
    if part != [] {
      var most := part[..|part| - 1];
      ContributionsMember(most, raws, w, zone, e);
      assert part == most + [part[|part| - 1]];
    }
  }

  /** An event is selected exactly when some raw event shows it: an override or an
      event without a rule as it stands, not cancelled and in the window; or an
      occurrence of a series that is not cancelled, at a start its expander emits
      and no RECURRENCE-ID of its UID names. */
  lemma SelectedIff(raws: seq<RawEvent>, w: Window, zone: int, e: Event)
    ensures e in SelectedEvents(raws, w, zone)
        <==> exists i :: 0 <= i < |raws| && ComesFrom(e, raws[i], raws, w, zone)
  {
    hide Contribution, ComesFrom, Contributions;
    ContributionsMember(raws, raws, w, zone, e);
    forall i | 0 <= i < |raws|
      ensures e in Contribution(raws[i], raws, w, zone) <==> ComesFrom(e, raws[i], raws, w, zone)
    {
      ContributionMember(raws[i], raws, w, zone, e);
    }
  }

  // ---- How often ---------------------------------------------------------

  // No series among them emits a start twice; so it is wherever INTERVAL is positive.
  ghost predicate EmitOnce(raws: seq<RawEvent>, w: Window, zone: int) {
    forall i :: 0 <= i < |raws| && raws[i].hasRule ==>
      Distinct(ExpandedStarts(raws[i].ev.start, Query(raws[i].rule, w, raws[i].exdates, zone)))
  }

  lemma PositiveIntervalsEmitOnce(raws: seq<RawEvent>, w: Window, zone: int)
    requires forall i :: 0 <= i < |raws| && raws[i].hasRule ==> raws[i].rule.interval >= 1
    ensures EmitOnce(raws, w, zone)
  {
    hide ExpandedStarts;
    forall i | 0 <= i < |raws| && raws[i].hasRule
      ensures Distinct(ExpandedStarts(raws[i].ev.start, Query(raws[i].rule, w, raws[i].exdates, zone)))
    {
      PositiveIntervalEmitsOnce(raws[i].ev.start, Query(raws[i].rule, w, raws[i].exdates, zone));
    }
  }

  lemma PositiveIntervalEmitsOnce(start: int, q: Query)
    requires q.rule.interval >= 1
    ensures Distinct(ExpandedStarts(start, q))
  {
    hide Starts, Taken, Wanted;
    match q.rule.freq {
      case DailyFreq => DailyIsDistinctIff(start, q);
      case WeeklyFreq => WeeklyIsDistinctIff(start, q);
      case MonthlyFreq => MonthlyIsDistinctIff(start, q);
      case YearlyFreq =>
    }
  }

  lemma {:induction false} NotNamedCounts(instances: seq<Event>, raws: seq<RawEvent>, uid: string, zone: int, e: Event)
    ensures multiset(NotNamed(instances, raws, uid, zone))[e] <= multiset(instances)[e]
  {
    hide IsNamed, FormatLocalDt;
    if instances != [] {
      var last := instances[|instances| - 1];
      assert instances == instances[..|instances| - 1] + [last];
      NotNamedCounts(instances[..|instances| - 1], raws, uid, zone, e);
    }
  }

  lemma {:induction false} DistinctInstances(base: Event, starts: seq<int>, e: Event)
    requires Distinct(starts)
    ensures multiset(Instances(base, starts))[e] <= 1
  {
    if starts != [] {
      var most, t := starts[..|starts| - 1], starts[|starts| - 1];
      DistinctInstances(base, most, e);
      assert most + [t] == starts;
      InstancesGrow(base, most, t);
      InstancesMember(base, most, e);
      hide Instances;
    }
  }

  // A raw event that emits once shows an event once or not at all.
  lemma ContributionCounts(r: RawEvent, raws: seq<RawEvent>, w: Window, zone: int, e: Event)
    requires r.hasRule ==> Distinct(ExpandedStarts(r.ev.start, Query(r.rule, w, r.exdates, zone)))
    ensures Contribution(r, raws, w, zone)[e] == if ComesFrom(e, r, raws, w, zone) then 1 else 0
  {
    ContributionMember(r, raws, w, zone, e);
    hide IsNamed, FormatLocalDt, ExpandedStarts, WithRepeat, ComesFrom, NotNamed, Instances, Distinct, InWindow;
    if r.hasRule {
      var base := WithRepeat(r.ev, r.rule);
      var starts := ExpandedStarts(r.ev.start, Query(r.rule, w, r.exdates, zone));
      NotNamedCounts(Instances(base, starts), raws, r.ev.uid, zone, e);
      DistinctInstances(base, starts, e);
    }
  }

  // The raw events among `part` that show e.
  ghost function Showing(e: Event, part: seq<RawEvent>, raws: seq<RawEvent>, w: Window, zone: int): set<int> {
    set i | 0 <= i < |part| && ComesFrom(e, part[i], raws, w, zone)
  }

  lemma {:induction false} ContributionsCount(part: seq<RawEvent>, raws: seq<RawEvent>, w: Window, zone: int, e: Event)
    requires EmitOnce(part, w, zone)
    ensures Contributions(part, raws, w, zone)[e] == |Showing(e, part, raws, w, zone)|
  {
    hide Contribution, ComesFrom, ExpandedStarts, Distinct;
    if part != [] {
      var n := |part| - 1;
      ContributionsCount(part[..n], raws, w, zone, e);
      ContributionCounts(part[n], raws, w, zone, e);
      var before := Showing(e, part[..n], raws, w, zone);
      assert Showing(e, part, raws, w, zone) == if ComesFrom(e, part[n], raws, w, zone) then before + {n} else before;
    }
  }

  /** An event is selected as often as there are raw events that show it. */
  lemma SelectedAsShown(raws: seq<RawEvent>, w: Window, zone: int, e: Event)
    requires EmitOnce(raws, w, zone)
    ensures SelectedEvents(raws, w, zone)[e] == |Showing(e, raws, raws, w, zone)|
  {
    hide Contributions, Showing;
    ContributionsCount(raws, raws, w, zone, e);
  }

  // ---- What an occurrence is like ----------------------------------------

  // All that an event says, but for its start and end and how it repeats.
  predicate SaysTheSame(e: Event, ev: Event) {
    && e.summary == ev.summary && e.description == ev.description && e.uid == ev.uid && e.location == ev.location
    && e.sequence == ev.sequence && e.created == ev.created && e.lastModified == ev.lastModified
    && e.stamp == ev.stamp && e.url == ev.url && e.organizer == ev.organizer
    && e.organizerName == ev.organizerName && e.categories == ev.categories && e.status == ev.status
    && e.alarms == ev.alarms && e.exdates == ev.exdates
  }

  // The repeat fields say what the rule says.
  predicate RepeatsBy(e: Event, rule: Rule) {
    && (e.repeat == Daily <==> rule.freq == DailyFreq) && (e.repeat == Weekly <==> rule.freq == WeeklyFreq)
    && (e.repeat == Monthly <==> rule.freq == MonthlyFreq) && (e.repeat == Yearly <==> rule.freq == YearlyFreq)
    && e.recurrenceInterval == rule.interval
  }

  /** Every occurrence lasts as long as the event of its series, says what that says,
      and carries the rule; the weekdays and the end of the rule are added to what
      the event has. */
  lemma OccurrenceIsLikeEvent(r: RawEvent, raws: seq<RawEvent>, w: Window, zone: int, e: Event)
    requires e in SeriesEvents(r, raws, w, zone)
    ensures e.end - e.start == r.ev.end - r.ev.start
    ensures SaysTheSame(e, r.ev) && RepeatsBy(e, r.rule)
    ensures forall d :: d in e.bydayMask <==> d in r.ev.bydayMask || d in r.rule.byday
    ensures e.recurrenceEnd == if r.rule.until == 0 then r.ev.recurrenceEnd else r.rule.until
  {
    SeriesMember(r, raws, w, zone, e);
    hide IsNamed, FormatLocalDt, ExpandedStarts, SeriesEvents;
  }

  lemma {:induction false} TakenStarts(s: Series, q: Query, n: nat, t: int)
    requires t in Starts(s, q, n)
    ensures t <= q.window.deadline && (s.MonthlySeries? || q.window.start <= t)
  {
    hide IsExcluded, Slot;
    if t !in Starts(s, q, n - 1) {
      assert Taken(s, n - 1, q);
    } else {
      TakenStarts(s, q, n - 1, t);
    }
  }

  /** Nothing selected starts after the deadline, and nothing before the window but
      the occurrences of a monthly series. */
  lemma SelectedIsInBounds(raws: seq<RawEvent>, w: Window, zone: int, e: Event)
    requires e in SelectedEvents(raws, w, zone)
    ensures e.start <= w.deadline
    ensures e.start >= w.start
         || exists i :: 0 <= i < |raws| && IsOccurrence(raws[i], e.start, w, zone) && raws[i].rule.freq == MonthlyFreq
  {
    hide SelectedEvents, Starts;
    SelectedIff(raws, w, zone, e);
    var i :| 0 <= i < |raws| && ComesFrom(e, raws[i], raws, w, zone);
    var r := raws[i];
    if IsOccurrence(r, e.start, w, zone) {
      var q := Query(r.rule, w, r.exdates, zone);
      match r.rule.freq {
        case DailyFreq => TakenStarts(DailyOf(r.ev.start, q), q, 365, e.start);
        case WeeklyFreq => TakenStarts(WeeklyOf(r.ev.start, q), q, 3_640, e.start);
        case MonthlyFreq => TakenStarts(MonthlyOf(r.ev.start, q), q, 24, e.start);
        case YearlyFreq =>
      }
    }
  }

  /** Overrides replace their slot: once a RECURRENCE-ID spells the local wall time
      tm, the series of that UID is silent at that instant and at no other on its
      account; the override itself is shown exactly when it is not cancelled and
      starts inside the window. */
  lemma OverrideReplacesSlot(raws: seq<RawEvent>, w: Window, zone: int, i: nat, master: RawEvent, tm: Tm, t: int)
    requires i < |raws| && raws[i].hasRecurrenceId && raws[i].ev.uid == master.ev.uid
    requires IsNormal(tm) && 1000 <= tm.year <= 9999 && raws[i].recurrenceId == StampText(tm)
    ensures Overrides(raws[i], master.ev.uid, FormatLocalDt(t, zone)) <==> t == Mktime(tm, zone)
    ensures t == Mktime(tm, zone) ==>
      forall e: Event :: e in SeriesEvents(master, raws, w, zone) ==> e.start != t
    ensures (forall e: Event :: ComesFrom(e, raws[i], raws, w, zone) <==>
      e == raws[i].ev && raws[i].ev.status != Canceled && InWindow(raws[i].ev.start, w))
  {
    hide FormatLocalDt, StampText, Mktime, Instances, ExpandedStarts, IsNormal;
    KeyNamesLocalInstant(tm, t, zone);
    var instances := Instances(WithRepeat(master.ev, master.rule),
                               ExpandedStarts(master.ev.start, Query(master.rule, w, master.exdates, zone)));
    forall e: Event | e in SeriesEvents(master, raws, w, zone) && t == Mktime(tm, zone)
      ensures e.start != t
    {
      NotNamedMember(instances, raws, master.ev.uid, zone, e);
      assert Overrides(raws[i], master.ev.uid, FormatLocalDt(t, zone));
    }
  }

  // ---- Series, end to end ------------------------------------------------

  /** The occurrence of r at t is neither later than UNTIL, nor does an EXDATE of r or a
      RECURRENCE-ID of its UID spell its local wall time. */
  ghost predicate IsLeftIn(r: RawEvent, raws: seq<RawEvent>, t: int, zone: int) {
    && (r.rule.until == 0 || t <= r.rule.until)
    && FormatLocalDt(t, zone) !in r.exdates
    && forall i :: 0 <= i < |raws| && raws[i].hasRecurrenceId && raws[i].ev.uid == r.ev.uid ==>
         raws[i].recurrenceId != FormatLocalDt(t, zone)
  }

  lemma LeftInIs(r: RawEvent, raws: seq<RawEvent>, w: Window, t: int, zone: int)
    ensures var q := Query(r.rule, w, r.exdates, zone);
            IsLeftIn(r, raws, t, zone)
            <==> NotAfterUntil(t, r.rule) && !IsExcluded(t, q.exdates, zone)
                 && !IsNamed(raws, r.ev.uid, FormatLocalDt(t, zone))
  {
    hide FormatLocalDt;
    var key := FormatLocalDt(t, zone);
    if IsNamed(raws, r.ev.uid, key) {
      var i :| 0 <= i < |raws| && Overrides(raws[i], r.ev.uid, key);
      assert raws[i].hasRecurrenceId && raws[i].ev.uid == r.ev.uid && raws[i].recurrenceId == key;
    }
  }

  // The occurrence of r at t.
  function OccurrenceAt(r: RawEvent, t: int): Event {
    InstanceAt(WithRepeat(r.ev, r.rule), t)
  }

  /** What a daily series with INTERVAL >= 1 shows, from the rule alone: of its first
      365 steps those in the window that are left in. */
  lemma DailySeriesShows(raws: seq<RawEvent>, w: Window, zone: int, r: RawEvent, e: Event)
    requires r.rule.freq == DailyFreq && r.rule.interval >= 1
    ensures e in SeriesEvents(r, raws, w, zone) <==>
              && e == OccurrenceAt(r, e.start) && w.start <= e.start <= w.deadline && IsLeftIn(r, raws, e.start, zone)
              && exists i: nat :: i < 365 && IsDay(e.start, r.ev.start, i * r.rule.interval)
  {
    hide FormatLocalDt, ExpandedStarts, IsNamed, WithRepeat, IsDay, IsLeftIn, SeriesEvents, InstanceAt, IsExcluded,
      NotAfterUntil;
    DailyIsExact(r.ev.start, Query(r.rule, w, r.exdates, zone));
    SeriesMember(r, raws, w, zone, e);
    LeftInIs(r, raws, w, e.start, zone);
  }

  /** What a weekly series with INTERVAL >= 1 shows, from the rule alone: the asked
      weekdays of every INTERVAL-th block of seven days from DTSTART, for 520 blocks,
      in the window and left in. */
  lemma WeeklySeriesShows(raws: seq<RawEvent>, w: Window, zone: int, r: RawEvent, e: Event)
    requires r.rule.freq == WeeklyFreq && r.rule.interval >= 1
    ensures e in SeriesEvents(r, raws, w, zone) <==>
              && e == OccurrenceAt(r, e.start) && w.start <= e.start <= w.deadline && IsLeftIn(r, raws, e.start, zone)
              && exists n: nat :: IsDay(e.start, r.ev.start, n)
                                  && OnWeeklyDay(n, r.ev.start, Query(r.rule, w, r.exdates, zone))
  {
    hide FormatLocalDt, ExpandedStarts, IsNamed, WithRepeat, IsDay, IsLeftIn, SeriesEvents, InstanceAt, IsExcluded,
      NotAfterUntil, OnWeeklyDay;
    WeeklyIsExact(r.ev.start, Query(r.rule, w, r.exdates, zone));
    SeriesMember(r, raws, w, zone, e);
    LeftInIs(r, raws, w, e.start, zone);
  }

  /** What a monthly series with INTERVAL >= 1 shows: of the local midnights of its day
      in 24 months those up to the deadline that are left in, the error value of mktime
      set apart. */
  lemma MonthlySeriesShows(raws: seq<RawEvent>, w: Window, zone: int, r: RawEvent, e: Event)
    requires r.rule.freq == MonthlyFreq && r.rule.interval >= 1
    ensures e in SeriesEvents(r, raws, w, zone) <==>
              && e == OccurrenceAt(r, e.start) && e.start != -1 && e.start <= w.deadline
              && IsLeftIn(r, raws, e.start, zone)
              && exists i: nat :: i < 24 && IsMonthlyMidnight(e.start, r, i, zone)
  {
    hide FormatLocalDt, ExpandedStarts, IsNamed, WithRepeat, IsLeftIn, SeriesEvents, InstanceAt, IsExcluded,
      NotAfterUntil, Slot, IsMonthlyMidnight;
    var q := Query(r.rule, w, r.exdates, zone);
    MonthlyIsExact(r.ev.start, q);
    SeriesMember(r, raws, w, zone, e);
    LeftInIs(r, raws, w, e.start, zone);
    forall i: nat
      ensures Slot(MonthlyOf(r.ev.start, q), i) == e.start <==> IsMonthlyMidnight(e.start, r, i, zone)
    {
      MonthlyMidnightIs(r, w, i, e.start, zone);
    }
  }

  // YEARLY is read, and shows nothing.
  lemma YearlySeriesShowsNothing(raws: seq<RawEvent>, w: Window, zone: int, r: RawEvent)
    requires r.rule.freq == YearlyFreq
    ensures SeriesEvents(r, raws, w, zone) == []
  {
  }

  // Midnight, counted from the start of the i * INTERVAL-th month after DTSTART's by
  // DTSTART's day of the month.
  predicate IsMonthlyMidnight(t: int, r: RawEvent, i: nat, zone: int) {
    var first := Localtime(r.ev.start, zone);
    t == 86_400 * (MonthStart(12 * first.year + first.mon + i * r.rule.interval) + first.mday - 1) - zone
  }

  lemma MonthlyMidnightIs(r: RawEvent, w: Window, i: nat, t: int, zone: int)
    ensures Slot(MonthlyOf(r.ev.start, Query(r.rule, w, r.exdates, zone)), i) == t
        <==> IsMonthlyMidnight(t, r, i, zone)
  {
    hide Slot, MonthStart, Gmtime;
    MonthlySlotInstant(r.ev.start, Query(r.rule, w, r.exdates, zone), i);
  }

  // ---- Cancelled events --------------------------------------------------

  /** The parser never selects a cancelled event. */
  lemma SelectedIsNotCanceled(raws: seq<RawEvent>, w: Window, zone: int, e: Event)
    requires e in SelectedEvents(raws, w, zone)
    ensures e.status != Canceled
  {
    hide SelectedEvents, ExpandedStarts, IsNamed, FormatLocalDt;
    SelectedIff(raws, w, zone, e);
    var i :| 0 <= i < |raws| && ComesFrom(e, raws[i], raws, w, zone);
  }
}
