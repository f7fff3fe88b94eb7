/** Which events are next, and what the selection makes of monthly series. */
module NextEvents {
  import opened Clock
  import opened Civil
  import opened DateTime
  import opened Events
  import opened Recurrence
  import opened RecurrenceLaws
  import opened Selection
  import opened Pipeline
  import opened PipelineLaws
  import opened EventManager

  /** An event is next exactly when it is not over, and starts no later than the horizon
      and no earlier than now or, where the day's events are asked for, than the last
      local midnight; a start that was never set does not count. */
  lemma UpcomingIff(e: Event, now: int, settings: Settings, zone: int)
    ensures var midnight := Midnight(WholeSeconds(now), zone);
            var first := if settings.fromDayStart && midnight != -1 then midnight * TICKS else now;
            IsNext(e, now, ComputeWindow(now, settings, zone)) <==>
              && e.start != 0 && now < e.end * TICKS
              && first <= e.start * TICKS <= now + 3600 * TICKS * settings.horizonHours
  {
    hide ComputeWindow, LocalDay, WholeSeconds, SecondAfter, SecondBefore;
    if settings.fromDayStart {
      WindowStartsAtMidnight(now, settings, zone);
      SecondsAround(now, e.start);
      SecondsAround(now + 3600 * TICKS * settings.horizonHours, e.start);
    } else {
      WindowStartsNow(now, settings, zone, e.start);
    }
  }

  lemma SameDaySameMidnight(t: int, u: int, zone: int)
    requires (u + zone) % 86_400 == 0 && LocalDay(t, zone) == LocalDay(u, zone)
    ensures u == Midnight(t, zone)
  {
  }

  /** On the first day of a monthly series nothing of it is next once local midnight
      has passed, even while DTSTART itself is still to come: its occurrence of that
      day stands at midnight, before the window. */
  lemma FirstDayIsMissed(r: RawEvent, raws: seq<RawEvent>, now: int, w: Window, zone: int, e: Event)
    requires r.rule.freq == MonthlyFreq && r.rule.interval >= 1
    requires Midnight(r.ev.start, zone) < w.start <= r.ev.start
    requires e in SeriesEvents(r, raws, w, zone) && LocalDay(e.start, zone) == LocalDay(r.ev.start, zone)
    ensures e.start == Midnight(r.ev.start, zone) && !IsNext(e, now, w)
  {
    hide *;
    SeriesStart(r, raws, w, zone, e);
    MonthlyStart(r.ev.start, Query(r.rule, w, r.exdates, zone), e.start);
    SameDaySameMidnight(r.ev.start, e.start, zone);
    TooEarly(e, now, w);
  }

  lemma TooEarly(e: Event, now: int, w: Window)
    requires e.start < w.start
    ensures !IsNext(e, now, w)
  {
  }

  lemma SeriesStart(r: RawEvent, raws: seq<RawEvent>, w: Window, zone: int, e: Event)
    requires e in SeriesEvents(r, raws, w, zone)
    ensures e.start in ExpandedStarts(r.ev.start, Query(r.rule, w, r.exdates, zone))
  {
    hide ExpandedStarts, IsNamed, FormatLocalDt, NotNamed;
    var starts := ExpandedStarts(r.ev.start, Query(r.rule, w, r.exdates, zone));
    var instances := Instances(WithRepeat(r.ev, r.rule), starts);
    NotNamedMember(instances, raws, r.ev.uid, zone, e);
    var k :| 0 <= k < |instances| && instances[k] == e;
    assert e.start == starts[k];
  }

  lemma MonthlyStart(start: int, q: Query, t: int)
    requires q.rule.freq == MonthlyFreq && q.rule.interval >= 1 && t in ExpandedStarts(start, q)
    ensures (t + q.zone) % 86_400 == 0
  {
    hide ExpandedStarts, Slot, IsExcluded, NotAfterUntil, MonthlyOf;
    MonthlyIsExact(start, q);
    var i: nat :| i < 24 && Slot(MonthlyOf(start, q), i) == t;
    SlotIsMidnight(start, q, i);
  }
}
