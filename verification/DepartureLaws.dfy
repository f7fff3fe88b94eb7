/** Properties that do not do what the standard says they do: STATUS cancels only in
    one spelling, and COUNT and a date UNTIL end no series. */
module DepartureLaws {
  import opened Results
  import opened Text
  import opened Decimal
  import opened Civil
  import opened DateTime
  import opened TextUtils
  import opened Events
  import opened Rrule
  import opened RruleLaws
  import opened Recurrence
  import opened LimitLaws
  import opened EventBuilder
  import opened Selection
  import opened Pipeline

  // ---- STATUS ------------------------------------------------------------

  function Marked(r: RawEvent, status: Status): RawEvent {
    r.(ev := r.ev.(status := status))
  }

  // A STATUS line at the end of an event sets the status and nothing else.
  lemma StatusLineSets(lines: seq<string>, alarm: seq<string>, value: string, z: Zones)
    requires BuildOf(lines, alarm, z).Ok? && IsTrimmed("STATUS:" + value)
    ensures BuildOf(lines + ["STATUS:" + value], alarm, z)
         == Ok(Marked(BuildOf(lines, alarm, z).value, ReadStatus(value)))
  {
    hide ReadStatus, Trim, IsTrimmed, SplitIcsLine, ApplyProperty;
    var line := "STATUS:" + value;
    TrimIsIdempotent(line);
    StatusLineSplits(value);
    assert (lines + [line])[..|lines|] == lines;
    var re := ApplyLines(lines, z).value;
    StatusApplies(re, value, z);
  }

  lemma StatusApplies(re: RawEvent, value: string, z: Zones)
    ensures ApplyProperty(re, StatusOf, ContentLine("STATUS", "", value), z) == Ok(Marked(re, ReadStatus(value)))
  {
    hide ReadStatus;
  }

  lemma StatusLineSplits(value: string)
    ensures SplitIcsLine("STATUS:" + value) == ContentLine("STATUS", "", value)
  {
    var key := "STATUS";
    assert ToUpper(key) == key;
    hide SplitIcsLine;
    SplitInvertsPrint(key, "", value);
    assert key + ":" + value == "STATUS:" + value;
  }

  lemma {:induction false} NotNamedAlike(instances: seq<Event>, a: seq<RawEvent>, b: seq<RawEvent>,
                                         uid: string, zone: int)
    requires forall key :: IsNamed(a, uid, key) <==> IsNamed(b, uid, key)
    ensures NotNamed(instances, a, uid, zone) == NotNamed(instances, b, uid, zone)
  {
    hide IsNamed, FormatLocalDt;
    if instances != [] {
      NotNamedAlike(instances[..|instances| - 1], a, b, uid, zone);
    }
  }

  // The same overrides, whatever their status.
  ghost predicate NameAlike(a: seq<RawEvent>, b: seq<RawEvent>) {
    forall uid, key :: IsNamed(a, uid, key) <==> IsNamed(b, uid, key)
  }

  lemma ContributesAlike(r: RawEvent, a: seq<RawEvent>, b: seq<RawEvent>, w: Window, zone: int)
    requires NameAlike(a, b)
    ensures Contribution(r, a, w, zone) == Contribution(r, b, w, zone)
  {
    hide IsNamed, ExpandedStarts, FormatLocalDt, NotNamed, WithRepeat, InWindow;
    var q := Query(r.rule, w, r.exdates, zone);
    NotNamedAlike(Instances(WithRepeat(r.ev, r.rule), ExpandedStarts(r.ev.start, q)), a, b, r.ev.uid, zone);
  }

  lemma {:induction false} ContributeAlike(part: seq<RawEvent>, a: seq<RawEvent>, b: seq<RawEvent>,
                                           w: Window, zone: int)
    requires NameAlike(a, b)
    ensures Contributions(part, a, w, zone) == Contributions(part, b, w, zone)
  {
    hide NameAlike, Contribution;
    if part != [] {
      ContributeAlike(part[..|part| - 1], a, b, w, zone);
      ContributesAlike(part[|part| - 1], a, b, w, zone);
    }
  }

  lemma {:induction false} ContributionsSplit(a: seq<RawEvent>, b: seq<RawEvent>, raws: seq<RawEvent>,
                                              w: Window, zone: int)
    ensures Contributions(a + b, raws, w, zone) == Contributions(a, raws, w, zone) + Contributions(b, raws, w, zone)
  {
    hide Contribution;
    if b == [] {
      assert a + b == a;
    } else {
      assert (a + b)[..|a + b| - 1] == a + b[..|b| - 1];
      ContributionsSplit(a, b[..|b| - 1], raws, w, zone);
    }
  }

  lemma MarkingNamesAlike(a: seq<RawEvent>, r: RawEvent, b: seq<RawEvent>, status: Status)
    ensures NameAlike(a + [r] + b, a + [Marked(r, status)] + b)
  {
    var raws, marked := a + [r] + b, a + [Marked(r, status)] + b;
    forall uid, key
      ensures IsNamed(raws, uid, key) <==> IsNamed(marked, uid, key)
    {
      assert forall i :: 0 <= i < |raws| ==> (Overrides(raws[i], uid, key) <==> Overrides(marked[i], uid, key));
      if IsNamed(raws, uid, key) {
        var i :| 0 <= i < |raws| && Overrides(raws[i], uid, key);
        assert Overrides(marked[i], uid, key);
      }
      if IsNamed(marked, uid, key) {
        var i :| 0 <= i < |marked| && Overrides(marked[i], uid, key);
        assert Overrides(raws[i], uid, key);
      }
    }
  }

  // What is selected of a calendar, less what one raw event contributes.
  lemma MarkingChangesOwn(a: seq<RawEvent>, r: RawEvent, b: seq<RawEvent>, status: Status, w: Window, zone: int)
    ensures var raws, marked := a + [r] + b, a + [Marked(r, status)] + b;
            SelectedEvents(marked, w, zone) + Contribution(r, raws, w, zone)
            == SelectedEvents(raws, w, zone) + Contribution(Marked(r, status), marked, w, zone)
  {
    hide NameAlike, Contribution, Contributions;
    var m := Marked(r, status);
    var raws, marked := a + [r] + b, a + [m] + b;
    MarkingNamesAlike(a, r, b, status);
    ContributeAlike(a, raws, marked, w, zone);
    ContributeAlike(b, raws, marked, w, zone);
    ContributionsSplit(a + [r], b, raws, w, zone);
    ContributionsSplit(a, [r], raws, w, zone);
    ContributionsSplit(a + [m], b, marked, w, zone);
    ContributionsSplit(a, [m], marked, w, zone);
    OneContribution(r, raws, w, zone);
    OneContribution(m, marked, w, zone);
  }

  lemma OneContribution(r: RawEvent, raws: seq<RawEvent>, w: Window, zone: int)
    ensures Contributions([r], raws, w, zone) == Contribution(r, raws, w, zone)
  {
    hide Contribution;
    assert [r][..0] == [];
  }

  lemma {:induction false} NotNamedMarked(starts: seq<int>, r: RawEvent, status: Status, raws: seq<RawEvent>, zone: int)
    ensures var plain := Instances(WithRepeat(r.ev, r.rule), starts);
            var marked := Instances(WithRepeat(Marked(r, status).ev, r.rule), starts);
            |NotNamed(plain, raws, r.ev.uid, zone)| == |NotNamed(marked, raws, r.ev.uid, zone)|
  {
    hide IsNamed, FormatLocalDt;
    var plain := Instances(WithRepeat(r.ev, r.rule), starts);
    var marked := Instances(WithRepeat(Marked(r, status).ev, r.rule), starts);
    if starts != [] {
      var most := starts[..|starts| - 1];
      assert plain[..|plain| - 1] == Instances(WithRepeat(r.ev, r.rule), most);
      assert marked[..|marked| - 1] == Instances(WithRepeat(Marked(r, status).ev, r.rule), most);
      NotNamedMarked(most, r, status, raws, zone);
    }
  }

  // A cancelled event contributes nothing; one that is not, as many as a confirmed one.
  lemma MarkedContributes(r: RawEvent, status: Status, raws: seq<RawEvent>, w: Window, zone: int)
    requires r.ev.status != Canceled
    ensures |Contribution(Marked(r, status), raws, w, zone)|
         == if status == Canceled then 0 else |Contribution(r, raws, w, zone)|
  {
    hide IsNamed, ExpandedStarts, FormatLocalDt, NotNamed, InWindow, Instances, WithRepeat;
    NotNamedMarked(ExpandedStarts(r.ev.start, Query(r.rule, w, r.exdates, zone)), r, status, raws, zone);
  }

  /** An event whose lines end in STATUS:value, and the same event without that line:
      all else that is selected is the same, and where the event without it shows
      anything, the marked one vanishes exactly when the value reads CANCELED in any
      case.  The standard's spelling CANCELLED only makes the event confirmed, which
      changes nothing at all where it was. */
  lemma StatusVanishesIff(lines: seq<string>, alarm: seq<string>, value: string, z: Zones,
                          a: seq<RawEvent>, b: seq<RawEvent>, w: Window)
    requires BuildOf(lines, alarm, z).Ok? && IsTrimmed("STATUS:" + value)
    ensures BuildOf(lines + ["STATUS:" + value], alarm, z).Ok?
    ensures var r := BuildOf(lines, alarm, z).value;
            var m := BuildOf(lines + ["STATUS:" + value], alarm, z).value;
            var raws, marked := a + [r] + b, a + [m] + b;
            var shown, left := Contribution(r, raws, w, z.local), Contribution(m, marked, w, z.local);
            && SelectedEvents(marked, w, z.local) + shown == SelectedEvents(raws, w, z.local) + left
            && (shown != multiset{} ==> (left == multiset{} <==> ToUpper(value) == "CANCELED"))
            && (ToUpper(value) == "CANCELLED" ==> m == Marked(r, Confirmed))
  {
    var r := BuildOf(lines, alarm, z).value;
    var status := ReadStatus(value);
    CanceledIff(value);
    hide BuildOf, Contribution, SelectedEvents, ReadStatus, ToUpper, IsTrimmed;
    StatusLineSets(lines, alarm, value, z);
    MarkingChangesOwn(a, r, b, status, w, z.local);
    var raws, marked := a + [r] + b, a + [Marked(r, status)] + b;
    if r.ev.status == Canceled {
      CanceledContributesNothing(r, raws, w, z.local);
    } else {
      MarkedContributes(r, status, marked, w, z.local);
    }
    MarkingNamesAlike(a, r, b, status);
    ContributesAlike(r, raws, marked, w, z.local);
  }

  lemma CanceledContributesNothing(r: RawEvent, raws: seq<RawEvent>, w: Window, zone: int)
    requires r.ev.status == Canceled
    ensures Contribution(r, raws, w, zone) == multiset{}
  {
  }

  // ---- COUNT and a date UNTIL --------------------------------------------

  // A part that no pattern captures anything of: COUNT, BYSETPOS, a date UNTIL.
  predicate IsIgnored(p: Part) {
    p.Foreign? || p.UntilDate?
  }

  lemma {:induction false} FirstSkips(key: Key, parts: seq<Part>, i: nat, p: Part)
    requires i <= |parts| && IsIgnored(p)
    ensures FirstOf(key, parts[..i] + [p] + parts[i..]) == FirstOf(key, parts)
    decreases i
  {
    var with := parts[..i] + [p] + parts[i..];
    if i == 0 {
      assert with[1..] == parts && with[0] == p;
    } else {
      assert with[0] == parts[0];
      assert with[1..] == parts[1..][..i - 1] + [p] + parts[1..][i - 1..];
      FirstSkips(key, parts[1..], i - 1, p);
    }
  }

  function WithPart(parts: seq<Part>, i: nat, p: Part): seq<Part>
    requires i <= |parts|
  {
    parts[..i] + [p] + parts[i..]
  }

  ghost predicate ValidRule(parts: seq<Part>) {
    forall p :: p in parts ==> ValidPart(p)
  }

  // The starts of the series that the text of a rule makes of an event.
  function SeriesOf(parts: seq<Part>, start: int, w: Window, exdates: set<string>, zone: int): Result<seq<int>>
    requires ValidRule(parts)
  {
    var rule :- RuleOf(RuleText(parts));
    Ok(ExpandedStarts(start, Query(rule, w, exdates, zone)))
  }

  lemma WithPartIsValid(parts: seq<Part>, i: nat, p: Part)
    requires i <= |parts| && ValidRule(parts) && ValidPart(p)
    ensures ValidRule(WithPart(parts, i, p))
  {
    hide ValidPart;
  }

  /** COUNT=n or UNTIL=date anywhere in a rule changes nothing: it parses to the rule
      without it, and the series is never cut off. */
  lemma IgnoredPartEndsNothing(parts: seq<Part>, i: nat, p: Part,
                               start: int, w: Window, exdates: set<string>, zone: int)
    requires i <= |parts| && ValidRule(parts) && ValidPart(p) && IsIgnored(p)
    ensures ValidRule(WithPart(parts, i, p))
    ensures var plain := SeriesOf(parts, start, w, exdates, zone);
            plain.Ok? && SeriesOf(WithPart(parts, i, p), start, w, exdates, zone) == plain
  {
    hide ValidPart, RuleOf, RuleText, FirstOf, ExpandedStarts, IsIgnored;
    var with := WithPart(parts, i, p);
    WithPartIsValid(parts, i, p);
    ParseInvertsPrint(with);
    ParseInvertsPrint(parts);
    FirstSkips(FreqKey, parts, i, p);
    FirstSkips(IntervalKey, parts, i, p);
    FirstSkips(UntilKey, parts, i, p);
    FirstSkips(BydayKey, parts, i, p);
  }

  const DAILY_PART := [Freq(DailyFreq)]

  /** FREQ=DAILY;COUNT=1 repeats for a year. */
  lemma CountOfOneRepeats(start: int)
    ensures ValidRule(WithPart(DAILY_PART, 1, Foreign("COUNT=" + Print(1))))
    ensures var parts := WithPart(DAILY_PART, 1, Foreign("COUNT=" + Print(1)));
            var starts := SeriesOf(parts, start, Window(start, start + 86_400 * 364), {}, 0);
            starts.Ok? && |starts.value| == 365
  {
    var count, w := Foreign("COUNT=" + Print(1)), Window(start, start + 86_400 * 364);
    CountIsForeign(1);
    DailySeriesIs(start, w);
    hide SeriesOf, WithPart, Print, ValidPart;
    IgnoredPartEndsNothing(DAILY_PART, 1, count, start, w, {}, 0);
    YearOfDays(start, w);
  }

  lemma YearOfDays(start: int, w: Window)
    requires w == Window(start, start + 86_400 * 364)
    ensures |ExpandedStarts(start, Query(DEFAULT_RULE, w, {}, 0))| == 365
  {
    var q := Query(DEFAULT_RULE, w, {}, 0);
    forall j: nat | j < 365
      ensures Taken(DailyOf(start, q), j, q)
    {
      assert Slot(DailyOf(start, q), j) == start + 86_400 * j;
    }
    AllTaken(DailyOf(start, q), q, 365);
  }

  lemma DailySeriesIs(start: int, w: Window)
    ensures ValidRule(DAILY_PART)
    ensures SeriesOf(DAILY_PART, start, w, {}, 0) == Ok(ExpandedStarts(start, Query(DEFAULT_RULE, w, {}, 0)))
  {
    hide RuleOf, RuleText, ExpandedStarts;
    PlainDaily();
  }

  lemma PlainDaily()
    ensures RuleOf(RuleText(DAILY_PART)) == Ok(DEFAULT_RULE)
  {
    hide RuleOf, RuleText;
    assert DAILY_PART[1..] == [];
    ParseInvertsPrint(DAILY_PART);
  }

  // ---- A date UNTIL, end to end ------------------------------------------

  // The last second of a day, up to which a date UNTIL lets a series run.
  function LastSecond(tm: Tm, zone: int): int {
    Mktime(tm.(hour := 23, min := 59, sec := 59), zone)
  }

  /** A rule with UNTIL as the date of tm gives the series that ends with that day
      exactly when no slot of its series after the day is taken. */
  lemma DateUntilHoldsIff(parts: seq<Part>, i: nat, tm: Tm, start: int, w: Window, exdates: set<string>, zone: int)
    requires i <= |parts| && ValidRule(parts) && FirstOf(UntilKey, parts) == None
    requires IsNormal(tm) && 0 <= tm.year <= 9999 && LastSecond(tm, zone) != NO_TIME
    ensures ValidRule(WithPart(parts, i, UntilDate(DateText(tm))))
    ensures var q := Query(Spelled(parts), w, exdates, zone);
            var starts := SeriesOf(WithPart(parts, i, UntilDate(DateText(tm))), start, w, exdates, zone);
            && starts.Ok?
            && (starts.value == ExpandedStarts(start, Bounded(q, LastSecond(tm, zone)))
                <==> forall j: nat ::
                       j < LimitOf(q.rule.freq) && Slot(SeriesFor(start, q), j) > LastSecond(tm, zone) ==>
                         !Taken(SeriesFor(start, q), j, q))
  {
    var q := Query(Spelled(parts), w, exdates, zone);
    var p := UntilDate(DateText(tm));
    assert q.rule.until == NO_TIME && ValidPart(p) && IsIgnored(p);
    PlainSeriesIs(parts, start, w, exdates, zone);
    hide *;
    IgnoredPartEndsNothing(parts, i, p, start, w, exdates, zone);
    UntilHoldsIff(start, q, LastSecond(tm, zone));
  }

  lemma PlainSeriesIs(parts: seq<Part>, start: int, w: Window, exdates: set<string>, zone: int)
    requires ValidRule(parts)
    ensures SeriesOf(parts, start, w, exdates, zone)
         == Ok(ExpandedStarts(start, Query(Spelled(parts), w, exdates, zone)))
  {
    hide RuleOf, RuleText, ExpandedStarts, Spelled, ValidPart;
    ParseInvertsPrint(parts);
  }

  const SECOND_OF_JANUARY := Tm(1970, 0, 2, 0, 0, 0)

  // A year of daily steps from the start of 1970.
  const YEAR := Query(DEFAULT_RULE, Window(0, 86_400 * 364), {}, 0)

  /** FREQ=DAILY;UNTIL=19700102 from the start of 1970 repeats for a year, past the day
      it names. */
  lemma UntilOfTwoDaysRepeats()
    ensures DateText(SECOND_OF_JANUARY) == "19700102" && LastSecond(SECOND_OF_JANUARY, 0) == 172_799
    ensures ValidRule(WithPart(DAILY_PART, 1, UntilDate("19700102")))
    ensures var starts := SeriesOf(WithPart(DAILY_PART, 1, UntilDate("19700102")), 0, YEAR.window, {}, 0);
            starts.Ok? && |starts.value| == 365 && starts.value != ExpandedStarts(0, Bounded(YEAR, 172_799))
  {
    SecondOfJanuaryIs();
    LastSecondIs();
    YearRunsOn();
    UntilRepeats(UntilDate("19700102"));
  }

  lemma UntilRepeats(p: Part)
    requires p == UntilDate("19700102")
    ensures ValidRule(WithPart(DAILY_PART, 1, p))
    ensures SeriesOf(WithPart(DAILY_PART, 1, p), 0, YEAR.window, {}, 0) == Ok(ExpandedStarts(0, YEAR))
    ensures |ExpandedStarts(0, YEAR)| == 365
  {
    hide *;
    UntilIsValid(p);
    DailySeriesIs(0, YEAR.window);
    YearIs();
    IgnoredPartEndsNothing(DAILY_PART, 1, p, 0, YEAR.window, {}, 0);
    YearOfDays(0, YEAR.window);
  }

  lemma UntilIsValid(p: Part)
    requires p == UntilDate("19700102")
    ensures ValidPart(p) && IsIgnored(p)
  {
  }

  lemma YearIs()
    ensures YEAR == Query(DEFAULT_RULE, YEAR.window, {}, 0) && YEAR.window == Window(0, 0 + 86_400 * 364)
    ensures 1 <= |DAILY_PART|
  {
  }

  lemma SecondOfJanuaryIs()
    ensures DateText(SECOND_OF_JANUARY) == "19700102"
  {
    JanuaryIs();
    hide *;
    YearIsPadded();
    DayIsPadded();
    DateTextIs(SECOND_OF_JANUARY, "1970", "01", "02");
    LiteralIs();
  }

  lemma JanuaryIs()
    ensures IsNormal(SECOND_OF_JANUARY) && 0 <= SECOND_OF_JANUARY.year <= 9999
    ensures SECOND_OF_JANUARY.year == 1970 && SECOND_OF_JANUARY.mon + 1 == 1 && SECOND_OF_JANUARY.mday == 2
  {
  }

  lemma DateTextIs(tm: Tm, year: string, mon: string, mday: string)
    requires IsNormal(tm) && 0 <= tm.year <= 9999
    requires Pad(tm.year, 4) == year && Pad(tm.mon + 1, 2) == mon && Pad(tm.mday, 2) == mday
    ensures DateText(tm) == year + mon + mday
  {
    hide Pad;
  }

  lemma LiteralIs()
    ensures "1970" + "01" + "02" == "19700102"
  {
  }

  lemma DayIsPadded()
    ensures Pad(1, 2) == "01" && Pad(2, 2) == "02"
  {
  }

  lemma YearIsPadded()
    ensures Pad(1970, 4) == "1970"
  {
    assert Pad(19, 2) == "19";
    assert Pad(197, 3) == "197";
  }

  lemma LastSecondIs()
    ensures LastSecond(SECOND_OF_JANUARY, 0) == 172_799
  {
    hide MonthStart;
    JanuaryStarts();
    assert 12 * SECOND_OF_JANUARY.year + SECOND_OF_JANUARY.mon == 23_640;
  }

  lemma JanuaryStarts()
    ensures MonthStart(23_640) == 0
  {
    hide DayNumber;
    DayNumberCountsDays(Date(1970, 1, 1));
    assert 23_640 / 12 == 1970 && 23_640 % 12 == 0;
  }

  lemma YearRunsOn()
    ensures ExpandedStarts(0, YEAR) != ExpandedStarts(0, Bounded(YEAR, 172_799))
  {
    ThirdDayIsTaken();
    hide Starts, Slot, Taken, SeriesFor, ExpandedStarts, Bounded;
    UntilHoldsIff(0, YEAR, 172_799);
  }

  lemma ThirdDayIsTaken()
    ensures Slot(SeriesFor(0, YEAR), 2) == 172_800 && Taken(SeriesFor(0, YEAR), 2, YEAR)
  {
    hide FormatLocalDt;
  }
}
