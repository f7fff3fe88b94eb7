/** iCalendar date-time text and instants. */
module DateTime {
  import opened Results
  import opened Text
  import opened Decimal
  import opened Civil
  import opened Timezone

  // A default-constructed time_point; the program reads it as "no time".
  const NO_TIME := 0

  // The error return of mktime and _mkgmtime.
  const TIME_FAILED := -1

  datatype DatetimeInfo = DatetimeInfo(timezone: string, isDate: bool, isUtc: bool, value: string)

  function MakeDatetimeInfo(params: string, value: string): DatetimeInfo {
    var p := FindText(params, "TZID=");
    var tail := if p == NPOS then "" else params[p + 5..];
    var e := Find(tail, ';');
    var timezone := if e == NPOS then tail else tail[..e];
    var isUtc := value != "" && value[|value| - 1] == 'Z';
    var isDate := FindText(params, "VALUE=DATE") != NPOS
                  || (timezone == "" && !isUtc && |value| == 8 && IsDigit(value[0]));
    DatetimeInfo(timezone, isDate, isUtc, value)
  }

  function Field(s: string, pos: nat, n: nat): Result<int> {
    var f :- Substr(s, pos, n);
    Stoi(f)
  }

  // YYYYMMDD, as broken-down time at midnight.
  function ReadDate(s: string): Result<Tm> {
    var year :- Field(s, 0, 4);
    var mon :- Field(s, 4, 2);
    var mday :- Field(s, 6, 2);
    Ok(Tm(year, mon - 1, mday, 0, 0, 0))
  }

  // YYYYMMDD?HHMMSS; the ninth character is not looked at.
  function ReadWall(s: string): Result<Tm> {
    var date :- ReadDate(s);
    var hour :- Field(s, 9, 2);
    var min :- Field(s, 11, 2);
    var sec :- Field(s, 13, 2);
    Ok(Tm(date.year, date.mon, date.mday, hour, min, sec))
  }

  /** Whatever stands between date and time is not looked at. */
  lemma NinthIsIgnored(s: string, c: char)
    requires |s| >= 15
    ensures ReadWall(s[8 := c]) == ReadWall(s)
  {
    hide Stoi;
    var u := s[8 := c];
    assert u[0..4] == s[0..4] && u[4..6] == s[4..6] && u[6..8] == s[6..8];
    assert u[9..11] == s[9..11] && u[11..13] == s[11..13] && u[13..15] == s[13..15];
  }

  function TimePoint(t: int): int {
    if t == TIME_FAILED then NO_TIME else t
  }

  // A zeroed std::tm: the last day of 1899.
  const ZERO_TM := Tm(1900, 0, 0, 0, 0, 0)

  /** A DTSTART or DTEND value as an instant.  Throws what std::stoi throws. */
  function ParseIcsDatetime(info: DatetimeInfo, vtz: map<string, int>, zone: int): Result<int> {
    var tm :- if info.isDate && |info.value| == 8 then ReadDate(info.value)
              else if |info.value| >= 15 then ReadWall(info.value)
              else Ok(ZERO_TM);
    var t :=
      if info.isUtc then Mkgmtime(tm)
      else if info.timezone != "" && !info.isDate then
        var off := OffsetHours(vtz, info.timezone);
        if off != UNKNOWN_OFFSET then Mkgmtime(tm) - off * 3600 else Mktime(tm, zone)
      else Mktime(tm, zone);
    Ok(TimePoint(t))
  }

  /** CREATED, LAST-MODIFIED and DTSTAMP: always UTC, and never a throw. */
  function ParseStamp(value: string): int {
    if |value| < 15 then NO_TIME
    else match ReadWall(value)
      case Ok(tm) => TimePoint(Mkgmtime(tm))
      case Err(_) => NO_TIME
  }

  function ClockText(tm: Tm): (s: string)
    requires IsNormal(tm)
    ensures |s| == 11
  {
    Pad(tm.mon + 1, 2) + Pad(tm.mday, 2) + "T" + Pad(tm.hour, 2) + Pad(tm.min, 2) + Pad(tm.sec, 2)
  }

  /** strftime "%Y%m%dT%H%M%S". */
  function Strftime(tm: Tm): string
    requires IsNormal(tm)
  {
    PrintInt(tm.year) + ClockText(tm)
  }

  /** The local wall time of an instant: the key by which EXDATE and
      RECURRENCE-ID values name an occurrence. */
  function FormatLocalDt(t: int, zone: int): string {
    Strftime(Localtime(t, zone))
  }

  predicate IsExcluded(t: int, exdates: set<string>, zone: int) {
    FormatLocalDt(t, zone) in exdates
  }

  // The date-time text of RFC 5545 section 3.3.5, with a four-digit year.
  function StampText(tm: Tm): (s: string)
    requires IsNormal(tm) && 0 <= tm.year <= 9999
    ensures |s| == 15
  {
    Pad(tm.year, 4) + ClockText(tm)
  }

  // Where the two-digit fields stand in a text that starts with `year`.
  lemma ClockSlices(year: string, tm: Tm, tail: string)
    requires IsNormal(tm) && |year| == 4
    ensures var s := year + ClockText(tm) + tail;
            && s[0..4] == year && s[4..6] == Pad(tm.mon + 1, 2) && s[6..8] == Pad(tm.mday, 2)
            && s[9..11] == Pad(tm.hour, 2) && s[11..13] == Pad(tm.min, 2) && s[13..15] == Pad(tm.sec, 2)
  {
    hide Pad, IsNormal;
  }

  lemma FieldIsPad(s: string, pos: nat, v: nat, w: nat)
    requires pos + w <= |s| && s[pos..pos + w] == Pad(v, w)
    requires w == 2 || w == 4
    requires v < 100 || (w == 4 && v < 10000)
    ensures Field(s, pos, w) == Ok(v)
  {
    assert Power10(2) == 100;
    assert Power10(4) == 10000 by { assert Power10(3) == 1000; }
    StoiPad(v, w);
  }

  /** Date-time text reads back as the broken-down time it was printed from,
      whatever follows it. */
  lemma ReadWallInvertsStampText(tm: Tm, tail: string)
    requires IsNormal(tm) && 0 <= tm.year <= 9999
    ensures ReadWall(StampText(tm) + tail) == Ok(tm)
  {
    hide Field, Pad, ClockText;
    var s := StampText(tm) + tail;
    ClockSlices(Pad(tm.year, 4), tm, tail);
    FieldIsPad(s, 0, tm.year, 4);
    FieldIsPad(s, 4, tm.mon + 1, 2);
    FieldIsPad(s, 6, tm.mday, 2);
    FieldIsPad(s, 9, tm.hour, 2);
    FieldIsPad(s, 11, tm.min, 2);
    FieldIsPad(s, 13, tm.sec, 2);
  }

  // The date text of section 3.3.4 of RFC 5545.
  function DateText(tm: Tm): (s: string)
    requires IsNormal(tm) && 0 <= tm.year <= 9999
    ensures |s| == 8 && AllDigits(s)
  {
    Pad(tm.year, 4) + Pad(tm.mon + 1, 2) + Pad(tm.mday, 2)
  }

  lemma DateSlices(tm: Tm)
    requires IsNormal(tm) && 0 <= tm.year <= 9999
    ensures var s := DateText(tm);
            s[0..4] == Pad(tm.year, 4) && s[4..6] == Pad(tm.mon + 1, 2) && s[6..8] == Pad(tm.mday, 2)
  {
    hide Pad, IsNormal;
  }

  function MidnightOfDate(tm: Tm): Tm {
    tm.(hour := 0, min := 0, sec := 0)
  }

  lemma ReadDateInvertsText(tm: Tm)
    requires IsNormal(tm) && 0 <= tm.year <= 9999
    ensures ReadDate(DateText(tm)) == Ok(MidnightOfDate(tm))
  {
    hide Field, Pad, DateText;
    var s := DateText(tm);
    DateSlices(tm);
    FieldIsPad(s, 0, tm.year, 4);
    FieldIsPad(s, 4, tm.mon + 1, 2);
    FieldIsPad(s, 6, tm.mday, 2);
  }

  lemma MarkedDateInfo(s: string)
    requires |s| == 8 && AllDigits(s)
    ensures MakeDatetimeInfo("VALUE=DATE", s) == DatetimeInfo("", true, false, s)
  {
    assert "VALUE=DATE"[0..] == "VALUE=DATE" && OccursAt("VALUE=DATE", "VALUE=DATE", 0);
    NoTzid("VALUE=DATE");
    hide FindText;
    assert IsDigit(s[7]) && s[7] != 'Z';
  }

  lemma DateInfo(s: string)
    requires |s| == 8 && AllDigits(s)
    ensures MakeDatetimeInfo("", s) == DatetimeInfo("", true, false, s)
  {
    assert IsDigit(s[7]) && IsDigit(s[0]);
  }

  // Without parameters the value alone tells what it is.
  lemma PlainInfoIs(value: string)
    ensures var utc := value != "" && value[|value| - 1] == 'Z';
            MakeDatetimeInfo("", value)
            == DatetimeInfo("", |value| == 8 && !utc && '0' <= value[0] <= '9', utc, value)
  {
    NoTzid("");
  }

  lemma TzidHasZ(s: string, k: nat)
    requires OccursAt(s, "TZID=", k)
    ensures 'Z' in s
  {
    assert s[k + 1] == s[k..][1] == "TZID="[1];
  }

  lemma NoTzid(s: string)
    requires 'Z' !in s
    ensures FindText(s, "TZID=") == NPOS
  {
    var r := FindText(s, "TZID=");
    if r != NPOS {
      TzidHasZ(s, r);
    }
  }

  /** A date, with or without VALUE=DATE, is local midnight of the day. */
  lemma DateReadsBack(tm: Tm, marked: bool, vtz: map<string, int>, zone: int)
    requires IsNormal(tm) && 0 <= tm.year <= 9999
    ensures ParseIcsDatetime(MakeDatetimeInfo(if marked then "VALUE=DATE" else "", DateText(tm)), vtz, zone)
         == Ok(TimePoint(Mktime(MidnightOfDate(tm), zone)))
  {
    hide MakeDatetimeInfo, DateText, ReadDate, ReadWall, Mktime, MidnightOfDate;
    DateInfo(DateText(tm));
    MarkedDateInfo(DateText(tm));
    ReadDateInvertsText(tm);
  }

  // No parameters and no Z: the value is in the system's local zone.
  lemma LocalInfo(value: string)
    requires |value| >= 15 && value[|value| - 1] != 'Z'
    ensures MakeDatetimeInfo("", value) == DatetimeInfo("", false, false, value)
  {
  }

  // With a four-digit year the key is date-time text, ending in a digit.
  lemma FormatIsStamp(t: int, zone: int)
    requires 1000 <= Localtime(t, zone).year <= 9999
    ensures var s := FormatLocalDt(t, zone);
            s == StampText(Localtime(t, zone)) && s[14] != 'Z'
  {
    hide Gmtime, IsNormal, Pad, Print, ClockText;
    var tm := Localtime(t, zone);
    assert Power10(4) == 10 * Power10(3) && Power10(3) == 1000;
    PrintIsPad(tm.year, 4);
    assert ClockText(tm)[10] == Pad(tm.sec, 2)[1] != 'Z' by {
      ClockSlices("0000", tm, "");
    }
  }

  /** Parsing the printed local time of any instant in a four-digit year gives
      the instant back, save the one second that is mktime's error value. */
  lemma ParseInvertsFormat(t: int, vtz: map<string, int>, zone: int)
    requires 1000 <= Localtime(t, zone).year <= 9999
    ensures var p := ParseIcsDatetime(MakeDatetimeInfo("", FormatLocalDt(t, zone)), vtz, zone);
            p == Ok(TimePoint(t)) && p == Ok(if t == -1 then 0 else t)
  {
    hide Gmtime, Mkgmtime, FormatLocalDt, StampText, MakeDatetimeInfo, ReadWall, ReadDate;
    var tm := Localtime(t, zone);
    FormatIsStamp(t, zone);
    var s := StampText(tm);
    LocalInfo(s);
    assert s + "" == s;
    ReadWallInvertsStampText(tm, "");
    MkgmtimeInvertsGmtime(t + zone);
  }

  /** A stamp is read like a UTC value, whose parameters count for nothing, except that
      what would throw is no time. */
  lemma StampIsForgiving(params: string, value: string, vtz: map<string, int>, zone: int)
    requires |value| >= 15 && value[|value| - 1] == 'Z'
    ensures var t := ParseIcsDatetime(MakeDatetimeInfo(params, value), vtz, zone);
            && ParseStamp(value) == (if t.Ok? then t.value else NO_TIME)
            && match ReadWall(value)
               case Ok(tm) => t == Ok(TimePoint(Mkgmtime(tm)))
               case Err(e) => t == Err(e)
  {
    hide Mkgmtime, ReadWall, ReadDate;
  }

  /** A stamp needs no Z; one shorter than a date-time is no time. */
  lemma StampNeedsNoZ(value: string)
    ensures |value| >= 15 ==> ParseStamp(value + "Z") == ParseStamp(value)
    ensures |value| < 15 ==> ParseStamp(value) == 0
  {
    hide ReadWall, Mkgmtime;
    if |value| >= 15 {
      ReadWallIgnoresTail(value, "Z");
    }
  }

  /** A printed UTC time is read back as its instant, save the -1, by stamps and by
      UTC values alike. */
  lemma StampReadsBack(tm: Tm, vtz: map<string, int>, zone: int)
    requires IsNormal(tm) && 0 <= tm.year <= 9999
    ensures var s := StampText(tm) + "Z";
            && ParseStamp(s) == TimePoint(Mkgmtime(tm))
            && ParseIcsDatetime(MakeDatetimeInfo("", s), vtz, zone) == Ok(TimePoint(Mkgmtime(tm)))
  {
    hide Mkgmtime, StampText, MakeDatetimeInfo, ParseIcsDatetime, ReadWall, ReadDate;
    ReadWallInvertsStampText(tm, "Z");
    StampIsForgiving("", StampText(tm) + "Z", vtz, zone);
  }

  lemma PrintIntIsInjective(a: int, b: int)
    requires PrintInt(a) == PrintInt(b)
    ensures a == b
  {
    var lo, hi := -(if a < 0 then -a else a) - (if b < 0 then -b else b), if a < b then b else a;
    ReadPrinted(a, if lo < a then lo else a, if hi < 0 then 0 else hi);
    ReadPrinted(b, if lo < a then lo else a, if hi < 0 then 0 else hi);
  }

  lemma ClockTextIsInjective(a: Tm, b: Tm)
    requires IsNormal(a) && IsNormal(b) && a.year == b.year && ClockText(a) == ClockText(b)
    ensures a == b
  {
    hide ClockText, Pad;
    ClockSlices("0000", a, "");
    ClockSlices("0000", b, "");
    assert Power10(2) == 100;
  }

  /** Distinct instants have distinct keys: a key names one occurrence. */
  lemma KeyIsInjective(t: int, u: int, zone: int)
    requires FormatLocalDt(t, zone) == FormatLocalDt(u, zone)
    ensures t == u
  {
    hide Gmtime, Mkgmtime, ClockText, PrintInt;
    var a, b := Localtime(t, zone), Localtime(u, zone);
    var k, l := FormatLocalDt(t, zone), FormatLocalDt(u, zone);
    assert k[|k| - 11..] == ClockText(a) && l[|l| - 11..] == ClockText(b);
    assert k[..|k| - 11] == PrintInt(a.year) && l[..|l| - 11] == PrintInt(b.year);
    PrintIntIsInjective(a.year, b.year);
    ClockTextIsInjective(a, b);
    MkgmtimeInvertsGmtime(t + zone);
    MkgmtimeInvertsGmtime(u + zone);
  }

  // TZID=name as the whole parameter list.
  lemma TzidInfo(name: string, value: string)
    requires name != "" && ';' !in name && FindText("TZID=" + name, "VALUE=DATE") == NPOS
    requires |value| >= 15 && value[|value| - 1] != 'Z'
    ensures MakeDatetimeInfo("TZID=" + name, value) == DatetimeInfo(name, false, false, value)
    ensures MakeDatetimeInfo("", value + "Z") == DatetimeInfo("", false, true, value + "Z")
  {
  }

  // TZID=name with other parameters behind it.
  lemma TzidInfoBefore(name: string, rest: string, value: string)
    requires name != "" && ';' !in name && (rest == "" || rest[0] == ';')
    requires FindText("TZID=" + name + rest, "VALUE=DATE") == NPOS
    requires |value| >= 15 && value[|value| - 1] != 'Z'
    ensures MakeDatetimeInfo("TZID=" + name + rest, value) == DatetimeInfo(name, false, false, value)
  {
    var params := "TZID=" + name + rest;
    assert "TZID=" <= params && params[5..] == name + rest;
    var tail := name + rest;
    assert tail[..|name|] == name;
    if rest != "" {
      FindIs(tail, ';', |name|);
    } else {
      assert tail == name;
    }
  }

  /** A wall time with a TZID of known offset k hours is k hours before the same
      wall time read as UTC, up to the -1 that stands for failure on each side. */
  lemma TzidShiftsUtc(wall: string, name: string, vtz: map<string, int>, zone: int)
    requires name != "" && ';' !in name && FindText("TZID=" + name, "VALUE=DATE") == NPOS
    requires |wall| >= 15 && wall[|wall| - 1] != 'Z'
    requires OffsetHours(vtz, name) != UNKNOWN_OFFSET
    ensures var local := ParseIcsDatetime(MakeDatetimeInfo("TZID=" + name, wall), vtz, zone);
            var utc := ParseIcsDatetime(MakeDatetimeInfo("", wall + "Z"), vtz, zone);
            match ReadWall(wall)
            case Err(e) => local == Err(e) && utc == Err(e)
            case Ok(tm) =>
              var t := Mkgmtime(tm);
              var k := OffsetHours(vtz, name) * 3600;
              local == Ok(TimePoint(t - k)) && utc == Ok(TimePoint(t))
              && (t != TIME_FAILED && t - k != TIME_FAILED ==> local.value == utc.value - k)
  {
    hide Mkgmtime, MakeDatetimeInfo, ReadWall, ReadDate, OffsetHours;
    TzidInfo(name, wall);
    ReadWallIgnoresTail(wall, "Z");
  }

  // A name that can stand as the only parameter.
  predicate IsTzid(name: string) {
    name != "" && ';' !in name && FindText("TZID=" + name, "VALUE=DATE") == NPOS
  }

  /** A wall time in a named zone is shifted by the hours the calendar defines for the
      name, or else by those of the name's row in the table; under any other name it is
      local time. */
  lemma ZonedTimeReads(tm: Tm, name: string, vtz: map<string, int>, zone: int)
    requires IsNormal(tm) && 0 <= tm.year <= 9999 && IsTzid(name)
    ensures var t := ParseIcsDatetime(MakeDatetimeInfo("TZID=" + name, StampText(tm)), vtz, zone);
            && (name in vtz && vtz[name] != UNKNOWN_OFFSET ==> t == Ok(TimePoint(Mkgmtime(tm) - 3600 * vtz[name])))
            && (forall k: nat :: name !in vtz && IsRowOf(STATIC_OFFSETS, name, k) ==>
                  t == Ok(TimePoint(Mkgmtime(tm) - 3600 * STATIC_OFFSETS[k].1)))
            && ((if name in vtz then vtz[name] == UNKNOWN_OFFSET
                 else forall k: nat :: !IsRowOf(STATIC_OFFSETS, name, k)) ==> t == Ok(TimePoint(Mktime(tm, zone))))
  {
    hide *;
    OffsetIsDefinedOrTabled(vtz, name);
    ZonedTimeIs(tm, name, vtz, zone);
    forall k: nat | IsRowOf(STATIC_OFFSETS, name, k)
      ensures k < |STATIC_OFFSETS| && STATIC_OFFSETS[k].1 != UNKNOWN_OFFSET
    {
      RowExists(name, k);
    }
  }

  lemma RowExists(name: string, k: nat)
    requires IsRowOf(STATIC_OFFSETS, name, k)
    ensures k < |STATIC_OFFSETS| && STATIC_OFFSETS[k].1 != UNKNOWN_OFFSET
  {
    RowsAreUpper(k);
  }

  lemma ZonedTimeIs(tm: Tm, name: string, vtz: map<string, int>, zone: int)
    requires IsNormal(tm) && 0 <= tm.year <= 9999 && IsTzid(name)
    ensures var hours := OffsetHours(vtz, name);
            ParseIcsDatetime(MakeDatetimeInfo("TZID=" + name, StampText(tm)), vtz, zone)
            == Ok(TimePoint(if hours == UNKNOWN_OFFSET then Mktime(tm, zone) else Mkgmtime(tm) - 3600 * hours))
  {
    hide StampText, Mkgmtime, MakeDatetimeInfo, ReadWall, ReadDate, IsNormal, OffsetHours;
    var s := StampText(tm);
    StampEndsInDigit(tm);
    TzidInfo(name, s);
    assert s + "" == s;
    ReadWallInvertsStampText(tm, "");
  }

  lemma StampEndsInDigit(tm: Tm)
    requires IsNormal(tm) && 0 <= tm.year <= 9999
    ensures StampText(tm)[14] != 'Z'
  {
  }

  // Midnight before 31 December 1899, as _mkgmtime reads a zeroed std::tm.
  const LAST_OF_1899 := -2_209_075_200

  /** A value that is neither a date nor as long as a date-time is read as the last day
      of 1899: so is a date in a named zone, without VALUE=DATE. */
  lemma ShortValueReads(info: DatetimeInfo, vtz: map<string, int>, zone: int)
    requires |info.value| < 15 && !(info.isDate && |info.value| == 8)
    ensures var hours := OffsetHours(vtz, info.timezone);
            ParseIcsDatetime(info, vtz, zone)
            == Ok(TimePoint(if info.isUtc then LAST_OF_1899
                            else if info.timezone != "" && !info.isDate && hours != UNKNOWN_OFFSET
                            then LAST_OF_1899 - 3600 * hours
                            else LAST_OF_1899 - zone))
  {
    hide Mkgmtime, OffsetHours;
    ZeroedIs();
  }

  lemma ZeroedIs()
    ensures Mkgmtime(ZERO_TM) == LAST_OF_1899
  {
    hide Mkgmtime, MonthStart;
    MidnightInstant(ZERO_TM, 22_800);
    ThatMonthStarts();
  }

  lemma ThatMonthStarts()
    ensures MonthStart(22_800) == -25_567
  {
    hide DayNumber;
    assert 22_800 / 12 == 1900 && 22_800 % 12 == 0;
    assert DayNumber(1900, 1, 1) == -25_567 by { ThatYearStarts(); }
  }

  lemma ThatYearStarts()
    ensures DayNumber(1900, 1, 1) == -25_567
  {
  }

  lemma ZonedDateReads(tm: Tm, name: string, vtz: map<string, int>, zone: int)
    requires IsNormal(tm) && 0 <= tm.year <= 9999 && IsTzid(name)
    ensures var hours := OffsetHours(vtz, name);
            ParseIcsDatetime(MakeDatetimeInfo("TZID=" + name, DateText(tm)), vtz, zone)
            == Ok(TimePoint(LAST_OF_1899 - if hours == UNKNOWN_OFFSET then zone else 3600 * hours))
  {
    hide DateText, Mkgmtime, OffsetHours, ParseIcsDatetime, IsNormal;
    var s := DateText(tm);
    DatedTzidInfo(name, s);
    ShortValueReads(DatetimeInfo(name, false, false, s), vtz, zone);
  }

  lemma DatedTzidInfo(name: string, value: string)
    requires IsTzid(name) && |value| == 8 && AllDigits(value)
    ensures MakeDatetimeInfo("TZID=" + name, value) == DatetimeInfo(name, false, false, value)
  {
    assert IsDigit(value[7]);
  }

  // TZID=Europe/Moscow without a VTIMEZONE: three hours.
  lemma MoscowReads(tm: Tm, zone: int)
    requires IsNormal(tm) && 0 <= tm.year <= 9999
    ensures ParseIcsDatetime(MakeDatetimeInfo("TZID=Europe/Moscow", StampText(tm)), map[], zone)
         == Ok(TimePoint(Mkgmtime(tm) - 3600 * 3))
  {
    MoscowIsRow();
    MoscowIsTzid();
    hide *;
    ZonedTimeReads(tm, "Europe/Moscow", map[], zone);
  }

  lemma MoscowIsRow()
    ensures IsRowOf(STATIC_OFFSETS, "Europe/Moscow", 2) && STATIC_OFFSETS[2].1 == 3
  {
    assert "EUROPE/KALININGRAD"[7] == 'K' && "Europe/Moscow"[7] == 'M';
  }

  lemma MoscowIsTzid()
    ensures IsTzid("Europe/Moscow") && "TZID=" + "Europe/Moscow" == "TZID=Europe/Moscow"
  {
    NoValue("TZID=" + "Europe/Moscow");
  }

  lemma ValueHasV(s: string, k: nat)
    requires OccursAt(s, "VALUE=DATE", k)
    ensures 'V' in s
  {
    assert s[k] == s[k..][0] == "VALUE=DATE"[0];
  }

  lemma NoValue(s: string)
    requires 'V' !in s
    ensures FindText(s, "VALUE=DATE") == NPOS
  {
    var r := FindText(s, "VALUE=DATE");
    if r != NPOS {
      ValueHasV(s, r);
    }
  }

  // The value read is the local one: what the zone means only where its offset is
  // the local one, the -1 of failed conversions aside.
  predicate IsLocalReading(read: Result<int>, meant: Result<int>, tm: Tm, hours: int, zone: int) {
    var local, zoned := Mktime(tm, zone), Mkgmtime(tm) - hours * 3600;
    && read == Ok(TimePoint(local))
    && (local != TIME_FAILED && zoned != TIME_FAILED ==> (read == meant <==> zone == hours * 3600))
  }

  /** Any parameter list with "VALUE=DATE" in it, VALUE=DATE-TIME included, turns a
      date-time into system-local time: where it also names a zone of known offset,
      the value read is the one the zone gives exactly when that offset is the local
      one. */
  lemma ValueParameterIgnoresTzid(params: string, name: string, wall: string, vtz: map<string, int>, zone: int)
    requires FindText(params, "VALUE=DATE") != NPOS && MakeDatetimeInfo(params, wall).timezone == name
    requires name != "" && ';' !in name && FindText("TZID=" + name, "VALUE=DATE") == NPOS
    requires |wall| >= 15 && wall[|wall| - 1] != 'Z'
    requires OffsetHours(vtz, name) != UNKNOWN_OFFSET
    ensures var read := ParseIcsDatetime(MakeDatetimeInfo(params, wall), vtz, zone);
            var meant := ParseIcsDatetime(MakeDatetimeInfo("TZID=" + name, wall), vtz, zone);
            match ReadWall(wall)
            case Err(e) => read == Err(e) && meant == Err(e)
            case Ok(tm) => IsLocalReading(read, meant, tm, OffsetHours(vtz, name), zone)
  {
    hide *;
    DateParameterIsLocal(params, wall, vtz, zone);
    TzidShiftsUtc(wall, name, vtz, zone);
    match ReadWall(wall) {
      case Err(_) =>
      case Ok(tm) =>
        var read := ParseIcsDatetime(MakeDatetimeInfo(params, wall), vtz, zone);
        var meant := ParseIcsDatetime(MakeDatetimeInfo("TZID=" + name, wall), vtz, zone);
        LocalReading(read, meant, tm, OffsetHours(vtz, name), zone);
    }
  }

  lemma LocalReading(read: Result<int>, meant: Result<int>, tm: Tm, hours: int, zone: int)
    requires read == Ok(TimePoint(Mktime(tm, zone))) && meant == Ok(TimePoint(Mkgmtime(tm) - hours * 3600))
    ensures IsLocalReading(read, meant, tm, hours, zone)
  {
    hide Mkgmtime;
  }

  lemma DateParameterIsLocal(params: string, wall: string, vtz: map<string, int>, zone: int)
    requires FindText(params, "VALUE=DATE") != NPOS
    requires |wall| >= 15 && wall[|wall| - 1] != 'Z'
    ensures ParseIcsDatetime(MakeDatetimeInfo(params, wall), vtz, zone)
         == match ReadWall(wall) case Ok(tm) => Ok(TimePoint(Mktime(tm, zone))) case Err(e) => Err(e)
  {
    hide Mkgmtime, ReadWall, ReadDate, OffsetHours;
  }

  lemma ReadWallIgnoresTail(s: string, tail: string)
    requires |s| >= 15
    ensures ReadWall(s + tail) == ReadWall(s)
  {
    hide Stoi;
    var u := s + tail;
    assert u[0..4] == s[0..4] && u[4..6] == s[4..6] && u[6..8] == s[6..8];
    assert u[9..11] == s[9..11] && u[11..13] == s[11..13] && u[13..15] == s[13..15];
  }
}
