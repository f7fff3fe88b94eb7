/** The selection window and the RECURRENCE-ID overrides. */
module Selection {
  import opened Clock
  import opened Civil
  import opened DateTime
  import opened Events

  datatype Settings = Settings(horizonHours: int, fromDayStart: bool)

  /** The window around the clock reading `now`: to the horizon, and from now or
      from the start of the local day.  Its bounds are the whole seconds next to
      those of the program, so it admits the same whole seconds. */
  function ComputeWindow(now: int, settings: Settings, zone: int): Window {
    var deadline := now + 3600 * TICKS * settings.horizonHours;
    var dayStart := Mktime(Localtime(WholeSeconds(now), zone).(hour := 0, min := 0, sec := 0), zone);
    var start :=
      if settings.fromDayStart && dayStart != TIME_FAILED then dayStart * TICKS else now;
    Window(SecondAfter(start), SecondBefore(deadline))
  }

  /** A window that starts now admits exactly the instants from now to the horizon,
      to the tick. */
  lemma WindowStartsNow(now: int, settings: Settings, zone: int, t: int)
    requires !settings.fromDayStart
    ensures var w := ComputeWindow(now, settings, zone);
            w.start <= t <= w.deadline <==> now <= t * TICKS <= now + 3600 * TICKS * settings.horizonHours
  {
    hide Mktime, Localtime, SecondAfter, SecondBefore;
    SecondsAround(now, t);
    SecondsAround(now + 3600 * TICKS * settings.horizonHours, t);
  }

  /** The start of the local day is the last midnight: of the same local day, and
      less than a day before now. */
  lemma WindowStartsAtMidnight(now: int, settings: Settings, zone: int)
    requires settings.fromDayStart
    ensures var w := ComputeWindow(now, settings, zone);
            var second := WholeSeconds(now);
            var midnight := 86_400 * LocalDay(second, zone) - zone;
            && w.start == (if midnight == TIME_FAILED then SecondAfter(now) else midnight)
            && midnight <= second < midnight + 86_400
            && LocalDay(midnight, zone) == LocalDay(second, zone)
            && w.deadline == SecondBefore(now + 3600 * TICKS * settings.horizonHours)
  {
    hide Mkgmtime, Gmtime, WholeSeconds, SecondAfter, SecondBefore;
    var second := WholeSeconds(now);
    MidnightOf(second + zone);
    var d := LocalDay(second, zone);
    DayAndClock(86_400 * d, d, 0);
    WholeSecondIsExact(86_400 * d - zone);
  }

  lemma WholeSecondIsExact(s: int)
    ensures SecondAfter(s * TICKS) == s
  {
  }

  lemma MidnightOf(t: int)
    ensures Mkgmtime(Gmtime(t).(hour := 0, min := 0, sec := 0)) == 86_400 * (t / 86_400)
  {
    hide Mkgmtime, Gmtime;
    var tm := Gmtime(t);
    MkgmtimeInvertsGmtime(t);
    StillNormal(tm);
    SameDate(tm, tm.(hour := 0, min := 0, sec := 0));
  }

  lemma SameDate(tm: Tm, midnight: Tm)
    requires IsNormal(tm) && IsNormal(midnight)
    requires midnight.year == tm.year && midnight.mon == tm.mon && midnight.mday == tm.mday
    requires ClockSeconds(midnight.hour, midnight.min, midnight.sec) == 0
    ensures Mkgmtime(midnight) == 86_400 * (Mkgmtime(tm) / 86_400)
  {
    hide Mkgmtime, DayNumber, IsDate;
    DayOfInstant(tm);
    DayOfInstant(midnight);
    NormalInstant(midnight);
  }

  lemma DayOfInstant(tm: Tm)
    requires IsNormal(tm)
    ensures Mkgmtime(tm) / 86_400 == DayNumber(tm.year, tm.mon + 1, tm.mday)
  {
    hide Mkgmtime, DayNumber, IsDate;
    ClockJoins(tm.hour, tm.min, tm.sec);
    NormalInstant(tm);
    DayAndClock(Mkgmtime(tm), DayNumber(tm.year, tm.mon + 1, tm.mday), ClockSeconds(tm.hour, tm.min, tm.sec));
  }

  lemma StillNormal(tm: Tm)
    requires IsNormal(tm)
    ensures IsNormal(tm.(hour := 0, min := 0, sec := 0))
  {
  }

  /** A time point that was never set is in no window. */
  predicate InWindow(t: int, w: Window) {
    t != NO_TIME && w.start <= t <= w.deadline
  }

  // ---- Overrides ---------------------------------------------------------

  // r is the override of the occurrence of `uid` named by `key`.
  predicate Overrides(r: RawEvent, uid: string, key: string) {
    r.hasRecurrenceId && r.ev.uid == uid && r.recurrenceId == key
  }

  // Some raw event overrides that occurrence: a scan of all of them.
  predicate IsNamed(raws: seq<RawEvent>, uid: string, key: string) {
    exists i :: 0 <= i < |raws| && Overrides(raws[i], uid, key)
  }

  type Index = map<string, seq<RawEvent>>

  // The overrides of `uid`, in order.
  function OverridesOf(raws: seq<RawEvent>, uid: string): (r: seq<RawEvent>)
    ensures forall o :: o in r <==> o in raws && o.hasRecurrenceId && o.ev.uid == uid
  {
    if raws == [] then []
    else
      var last := raws[|raws| - 1];
      assert raws == raws[..|raws| - 1] + [last];
      OverridesOf(raws[..|raws| - 1], uid) + if last.hasRecurrenceId && last.ev.uid == uid then [last] else []
  }

  ghost predicate IsIndexOf(idx: Index, raws: seq<RawEvent>) {
    forall uid :: if uid in idx then idx[uid] == OverridesOf(raws, uid) else OverridesOf(raws, uid) == []
  }

  method BuildIndex(raws: seq<RawEvent>) returns (idx: Index)
    ensures IsIndexOf(idx, raws)
  {
    idx := map[];
    for n := 0 to |raws|
      invariant IsIndexOf(idx, raws[..n])
    {
      assert raws[..n + 1][..n] == raws[..n];
      var r := raws[n];
      ghost var before := idx;
      if r.hasRecurrenceId {
        idx := idx[r.ev.uid := (if r.ev.uid in idx then idx[r.ev.uid] else []) + [r]];
      }
      forall uid
        ensures var found := OverridesOf(raws[..n + 1], uid);
                if uid in idx then idx[uid] == found else found == []
      {
        assert if uid in before then before[uid] == OverridesOf(raws[..n], uid) else OverridesOf(raws[..n], uid) == [];
        assert OverridesOf(raws[..n], uid) + [] == OverridesOf(raws[..n], uid);
      }
    }
    assert raws[..|raws|] == raws;
  }

  method IsOverridden(idx: Index, uid: string, key: string) returns (found: bool)
    ensures found <==> uid in idx && exists o :: o in idx[uid] && o.recurrenceId == key
  {
    if uid !in idx {
      return false;
    }
    for i := 0 to |idx[uid]|
      invariant forall j :: 0 <= j < i ==> idx[uid][j].recurrenceId != key
    {
      if idx[uid][i].recurrenceId == key {
        return true;
      }
    }
    return false;
  }

  /** The index answers as a scan of all raw events would. */
  lemma IndexAnswersAsScan(idx: Index, raws: seq<RawEvent>, uid: string, key: string)
    requires IsIndexOf(idx, raws)
    ensures (uid in idx && exists o :: o in idx[uid] && o.recurrenceId == key) <==> IsNamed(raws, uid, key)
  {
  }

  // The event an override adds on its own, if any.
  function OverrideEvent(r: RawEvent, w: Window): seq<Event> {
    if r.hasRecurrenceId && r.ev.status != Canceled && InWindow(r.ev.start, w) then [r.ev] else []
  }

  function OverrideEvents(raws: seq<RawEvent>, w: Window): seq<Event> {
    if raws == [] then []
    else OverrideEvents(raws[..|raws| - 1], w) + OverrideEvent(raws[|raws| - 1], w)
  }

  method AddInWindowOverrides(raws: seq<RawEvent>, w: Window, before: seq<Event>) returns (result: seq<Event>)
    ensures result == before + OverrideEvents(raws, w)
  {
    result := before;
    for n := 0 to |raws|
      invariant result == before + OverrideEvents(raws[..n], w)
    {
      assert raws[..n + 1][..n] == raws[..n];
      var r := raws[n];
      if !r.hasRecurrenceId || r.ev.status == Canceled {
        continue;
      }
      if InWindow(r.ev.start, w) {
        result := result + [r.ev];
      }
    }
    assert raws[..|raws|] == raws;
  }
}
