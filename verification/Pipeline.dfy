/** The calendar pipeline: unfold, scan, expand, override, select and sort. */
module Pipeline {
  import opened Results
  import opened Text
  import opened DateTime
  import opened Timezone
  import opened TextUtils
  import opened Events
  import opened Recurrence
  import opened EventBuilder
  import opened Scanner
  import opened Selection

  // ---- Repeat metadata ---------------------------------------------------

  function RepeatOf(freq: Freq): Repeat {
    match freq
    case DailyFreq => Daily
    case WeeklyFreq => Weekly
    case MonthlyFreq => Monthly
    case YearlyFreq => Yearly
  }

  // The flags are added to those the event already has.
  function WithRepeat(ev: Event, rule: Rule): Event {
    ev.(repeat := RepeatOf(rule.freq), recurrenceInterval := rule.interval,
        bydayMask := ev.bydayMask + rule.byday,
        recurrenceEnd := if rule.until != NO_TIME then rule.until else ev.recurrenceEnd)
  }

  method ApplyRepeatMetadata(ev: Event, rule: Rule) returns (r: Event)
    ensures r == WithRepeat(ev, rule)
  {
    r := ev.(repeat := RepeatOf(rule.freq));
    r := r.(recurrenceInterval := rule.interval);
    for d := 1 to 8
      invariant r == ev.(repeat := RepeatOf(rule.freq), recurrenceInterval := rule.interval,
                         bydayMask := ev.bydayMask + set x | x in rule.byday && x < d)
    {
      if d in rule.byday {
        r := r.(bydayMask := r.bydayMask + {d});
      }
    }
    assert (set x | x in rule.byday && x < 8) == rule.byday;
    if rule.until != NO_TIME {
      r := r.(recurrenceEnd := rule.until);
    }
  }

  // ---- Sorting -----------------------------------------------------------

  ghost predicate SortedByStart(events: seq<Event>) {
    forall i, j :: 0 <= i < j < |events| ==> events[i].start <= events[j].start
  }

  /** std::sort by start time: some order of the same events, ascending. */
  method SortByStart(events: seq<Event>) returns (r: seq<Event>)
    ensures SortedByStart(r) && multiset(r) == multiset(events)
  {
    r := [];
    for n := 0 to |events|
      invariant SortedByStart(r) && multiset(r) == multiset(events[..n])
    {
      assert events[..n + 1] == events[..n] + [events[n]];
      r := InsertByStart(r, events[n]);
    }
    assert events[..|events|] == events;
  }

  method InsertByStart(events: seq<Event>, ev: Event) returns (r: seq<Event>)
    requires SortedByStart(events)
    ensures SortedByStart(r) && multiset(r) == multiset(events) + multiset{ev}
  {
    var k := |events|;
    while k > 0 && events[k - 1].start > ev.start
      invariant 0 <= k <= |events|
      invariant forall i :: k <= i < |events| ==> events[i].start > ev.start
    {
      k := k - 1;
    }
    r := events[..k] + [ev] + events[k..];
    InsertedIsSorted(events, k, ev);
    InsertedIsPermutation(events, k, ev);
  }

  lemma InsertedIsSorted(events: seq<Event>, k: nat, ev: Event)
    requires SortedByStart(events) && k <= |events|
    requires k > 0 ==> events[k - 1].start <= ev.start
    requires forall i :: k <= i < |events| ==> events[i].start > ev.start
    ensures SortedByStart(events[..k] + [ev] + events[k..])
  {
  }

  lemma InsertedIsPermutation(events: seq<Event>, k: nat, ev: Event)
    requires k <= |events|
    ensures multiset(events[..k] + [ev] + events[k..]) == multiset(events) + multiset{ev}
  {
    assert events == events[..k] + events[k..];
  }

  // ---- What is selected --------------------------------------------------

  // The instances of a series that no override names.
  function NotNamed(instances: seq<Event>, raws: seq<RawEvent>, uid: string, zone: int): seq<Event> {
    if instances == [] then []
    else
      var last := instances[|instances| - 1];
      NotNamed(instances[..|instances| - 1], raws, uid, zone)
      + if IsNamed(raws, uid, FormatLocalDt(last.start, zone)) then [] else [last]
  }

  function SeriesEvents(r: RawEvent, raws: seq<RawEvent>, w: Window, zone: int): seq<Event> {
    var q := Query(r.rule, w, r.exdates, zone);
    NotNamed(Instances(WithRepeat(r.ev, r.rule), ExpandedStarts(r.ev.start, q)), raws, r.ev.uid, zone)
  }

  /** What a raw event that is not an override contributes. */
  function MasterEvents(r: RawEvent, raws: seq<RawEvent>, w: Window, zone: int): seq<Event> {
    if r.hasRecurrenceId || r.ev.status == Canceled then []
    else if r.hasRule then SeriesEvents(r, raws, w, zone)
    else if InWindow(r.ev.start, w) then [r.ev]
    else []
  }

  // What each raw event contributes, as a master or as an override.
  function Contribution(r: RawEvent, raws: seq<RawEvent>, w: Window, zone: int): multiset<Event> {
    multiset(MasterEvents(r, raws, w, zone)) + multiset(OverrideEvent(r, w))
  }

  function Contributions(part: seq<RawEvent>, raws: seq<RawEvent>, w: Window, zone: int): multiset<Event> {
    if part == [] then multiset{}
    else Contributions(part[..|part| - 1], raws, w, zone) + Contribution(part[|part| - 1], raws, w, zone)
  }

  /** The events of a calendar that are to be shown, as a multiset. */
  function SelectedEvents(raws: seq<RawEvent>, w: Window, zone: int): multiset<Event> {
    Contributions(raws, raws, w, zone)
  }

  function MastersOf(part: seq<RawEvent>, raws: seq<RawEvent>, w: Window, zone: int): seq<Event> {
    if part == [] then []
    else MastersOf(part[..|part| - 1], raws, w, zone) + MasterEvents(part[|part| - 1], raws, w, zone)
  }

  lemma {:induction false} MastersAndOverrides(part: seq<RawEvent>, raws: seq<RawEvent>, w: Window, zone: int)
    ensures multiset(MastersOf(part, raws, w, zone)) + multiset(OverrideEvents(part, w))
         == Contributions(part, raws, w, zone)
  {
    hide MasterEvents, OverrideEvent;
    if part != [] {
      MastersAndOverrides(part[..|part| - 1], raws, w, zone);
    }
  }

  /** The raw events of a calendar text, or the exception reading them throws. */
  function RawEventsOf(content: string, zone: int): Result<seq<RawEvent>> {
    RawsOf(BlocksOf(Lines(UnfoldText(content))), Zones(VtzOffsets(content), zone))
  }

  /** The instances of one master that survive the overrides. */
  method ExpandMaster(r: RawEvent, idx: Index, ghost raws: seq<RawEvent>, w: Window, zone: int, before: seq<Event>)
    returns (result: seq<Event>)
    requires IsIndexOf(idx, raws)
    ensures result == before + SeriesEvents(r, raws, w, zone)
  {
    hide IsNamed, IsIndexOf, FormatLocalDt, ExpandedStarts, WithRepeat, Instances;
    result := before;
    var base := ApplyRepeatMetadata(r.ev, r.rule);
    var instances := Expand(base, Query(r.rule, w, r.exdates, zone), []);
    assert instances == Instances(base, ExpandedStarts(r.ev.start, Query(r.rule, w, r.exdates, zone))) by {
      assert base.start == r.ev.start by { RepeatKeepsStart(r.ev, r.rule); }
    }
    for n := 0 to |instances|
      invariant result == before + NotNamed(instances[..n], raws, r.ev.uid, zone)
    {
      assert instances[..n + 1][..n] == instances[..n];
      var key := FormatLocalDt(instances[n].start, zone);
      var named := IsOverridden(idx, r.ev.uid, key);
      IndexAnswersAsScan(idx, raws, r.ev.uid, key);
      if named {
        continue;
      }
      result := result + [instances[n]];
    }
    assert instances[..|instances|] == instances;
  }

  lemma RepeatKeepsStart(ev: Event, rule: Rule)
    ensures WithRepeat(ev, rule).start == ev.start
  {
  }

  /** The pipeline: an exception of a date, number or rule it reads, or the
      selected events in ascending order of start. */
  method ParseCalendarAt(content: string, now: int, settings: Settings, zone: int) returns (r: Result<seq<Event>>)
    ensures match RawEventsOf(content, zone)
            case Err(e) => r == Err(e)
            case Ok(raws) =>
              && r.Ok? && SortedByStart(r.value)
              && multiset(r.value) == SelectedEvents(raws, ComputeWindow(now, settings, zone), zone)
  {
    hide VtzOffsets, Lines, UnfoldText, RawsOf, BlocksOf, IsIndexOf, SeriesEvents, InWindow, ComputeWindow;
    var tz := new Resolver();
    tz.CollectVtimezones(content);
    var unfolded := Unfold(content);
    var collected := CollectRawEvents(unfolded, Zones(tz.offsets, zone));
    if collected.Err? {
      return Err(collected.error);
    }
    var raws := collected.value;
    var w := ComputeWindow(now, settings, zone);
    var overrides := BuildIndex(raws);
    var result: seq<Event> := [];
    for n := 0 to |raws|
      invariant result == MastersOf(raws[..n], raws, w, zone)
    {
      assert raws[..n + 1][..n] == raws[..n];
      var r := raws[n];
      if r.hasRecurrenceId {
        continue;
      }
      if r.ev.status == Canceled {
        continue;
      }
      if r.hasRule {
        result := ExpandMaster(r, overrides, raws, w, zone, result);
      } else if InWindow(r.ev.start, w) {
        result := result + [r.ev];
      }
    }
    assert raws[..|raws|] == raws;
    result := AddInWindowOverrides(raws, w, result);
    MastersAndOverrides(raws, raws, w, zone);
    result := SortByStart(result);
    return Ok(result);
  }
}
